/** Commands run before an app starts, and undone after it ends or fails to start. */
module PrepUndo {
  import Bytes
  import opened Lists

  datatype Prep = Prep(doCmd: string, undoCmd: string)

  datatype App = App(prep: seq<Prep>, detached: seq<string>, cmd: string)

  const NO_APP := App([], [], "")

  datatype Errc = Fine | PermissionDenied | OtherError

  /** What running a command came to. */
  datatype Outcome = Outcome(ec: Errc, exitCode: int)

  /** What the system answers during one launch: whether a display could be set up, how each prep command went, and whether the
      app's own command could be started. */
  datatype World = World(displayOk: bool, prepOutcome: nat -> Outcome, started: bool)

  /** A command that was run, with the launch it belongs to. */
  datatype Entry =
    | Do(launch: nat, index: nat, cmd: string)
    | Undo(launch: nat, index: nat, cmd: string)
    | Spawn(launch: nat, index: nat, cmd: string)
    | Start(launch: nat, cmd: string)

  /** Whether a prep command that was run lets the launch go on. An app without a command of its own, the desktop, puts up with
      a command that could not be run for lack of permission. */
  predicate Passes(app: App, o: Outcome) {
    && (o.ec != Fine ==> app.cmd == "" && o.ec == PermissionDenied)
    && (o.exitCode != 0 ==> o.ec == PermissionDenied)
  }

  // ----- What a launch should run -----

  /** How many prep commands, from number i on, the launch moves past. */
  function PassedFrom(app: App, w: World, i: nat): (n: nat)
    requires i <= |app.prep|
    ensures i <= n <= |app.prep|
    ensures forall k :: i <= k < n ==> app.prep[k].doCmd == "" || Passes(app, w.prepOutcome(k))
    ensures n < |app.prep| ==> app.prep[n].doCmd != "" && !Passes(app, w.prepOutcome(n))
    decreases |app.prep| - i
  {
    if i == |app.prep| || (app.prep[i].doCmd != "" && !Passes(app, w.prepOutcome(i))) then i else PassedFrom(app, w, i + 1)
  }

  function Passed(app: App, w: World): (n: nat)
    ensures n <= |app.prep|
  {
    if w.displayOk then PassedFrom(app, w, 0) else 0
  }

  predicate Launched(app: App, w: World) {
    w.displayOk && Passed(app, w) == |app.prep| && (app.cmd != "" ==> w.started)
  }

  /** The commands of the first n preps that are not empty, in order. */
  function Dos(launch: nat, prep: seq<Prep>, n: nat): seq<Entry>
    requires n <= |prep|
  {
    if n == 0 then []
    else if prep[n - 1].doCmd == "" then Dos(launch, prep, n - 1)
    else Dos(launch, prep, n - 1) + [Do(launch, n - 1, prep[n - 1].doCmd)]
  }

  /** The undo commands of the first n preps that are not empty, the last one first. */
  function Undos(launch: nat, prep: seq<Prep>, n: nat): seq<Entry>
    requires n <= |prep|
  {
    if n == 0 then []
    else if prep[n - 1].undoCmd == "" then Undos(launch, prep, n - 1)
    else [Undo(launch, n - 1, prep[n - 1].undoCmd)] + Undos(launch, prep, n - 1)
  }

  function Spawns(launch: nat, detached: seq<string>, n: nat): seq<Entry>
    requires n <= |detached|
  {
    if n == 0 then [] else Spawns(launch, detached, n - 1) + [Spawn(launch, n - 1, detached[n - 1])]
  }

  /** What a launch runs until it is up or has failed: all preps it moves past, and the one it fails at; once past them all, the
      detached commands and the app's own. */
  function Up(launch: nat, app: App, w: World): seq<Entry> {
    var n := Passed(app, w);
    if !w.displayOk then []
    else if n < |app.prep| then Dos(launch, app.prep, n + 1)
    else
      Dos(launch, app.prep, n) + Spawns(launch, app.detached, |app.detached|)
      + (if app.cmd == "" then [] else [Start(launch, app.cmd)])
  }

  /** A launch from its first command to the last one that undoes it. */
  function Whole(launch: nat, app: App, w: World): seq<Entry> {
    Up(launch, app, w) + Undos(launch, app.prep, Passed(app, w))
  }

  // ----- Runs -----

  datatype Op = Launch(app: App, w: World) | End

  datatype State = State(launch: nat, app: App, prepIt: nat, log: seq<Entry>)

  ghost predicate Valid(s: State) {
    s.prepIt <= |s.app.prep|
  }

  /** What ending the current app still has to run. */
  function Pending(s: State): seq<Entry>
    requires Valid(s)
  {
    Undos(s.launch, s.app.prep, s.prepIt)
  }

  function Step(s: State, op: Op): (r: State)
    requires Valid(s)
    ensures Valid(r)
  {
    match op
    case End => State(s.launch, NO_APP, 0, s.log + Pending(s))
    case Launch(app, w) =>
      var before, l := s.log + Pending(s), s.launch + 1;
      if Launched(app, w) then State(l, app, |app.prep|, before + Up(l, app, w)) else State(l, NO_APP, 0, before + Whole(l, app, w))
  }

  function After(ops: seq<Op>): (r: State)
    ensures Valid(r)
  {
    if ops == [] then State(0, NO_APP, 0, []) else Step(After(ops[..|ops| - 1]), ops[|ops| - 1])
  }

  function Launches(ops: seq<Op>): nat {
    if ops == [] then 0 else Launches(ops[..|ops| - 1]) + (if ops[|ops| - 1].Launch? then 1 else 0)
  }

  /** One launch after the other, each from its first command to its last undo. */
  function Wholes(ops: seq<Op>): seq<Entry> {
    if ops == [] then []
    else
      var init, last := ops[..|ops| - 1], ops[|ops| - 1];
      Wholes(init) + (if last.Launch? then Whole(Launches(ops), last.app, last.w) else [])
  }

  /** In every run: what has been run, with what ending the current app will still run, is one whole launch after the other. */
  lemma {:induction false} EveryLaunchIsWhole(ops: seq<Op>)
    ensures After(ops).launch == Launches(ops)
    ensures After(ops).log + Pending(After(ops)) == Wholes(ops)
  {
    hide Step;
    if ops == [] {
      NothingPending(After(ops));
    } else {
      var init, op := ops[..|ops| - 1], ops[|ops| - 1];
      EveryLaunchIsWhole(init);
      StepIsWhole(After(init), op);
      hide Pending, Whole;
    }
  }

  lemma StepIsWhole(s: State, op: Op)
    requires Valid(s)
    ensures var r := Step(s, op);
      && r.launch == s.launch + (if op.Launch? then 1 else 0)
      && r.log + Pending(r) == s.log + Pending(s) + (if op.Launch? then Whole(r.launch, op.app, op.w) else [])
  {
    hide Up, Undos, Launched;
    var r := Step(s, op);
    NothingPending(r);
    if op.Launch? && Launched(op.app, op.w) {
      LaunchedPasses(op.app, op.w);
      Bytes.Assoc(s.log + Pending(s), Up(r.launch, op.app, op.w), Pending(r));
    }
  }

  lemma LaunchedPasses(app: App, w: World)
    requires Launched(app, w)
    ensures Passed(app, w) == |app.prep|
  {
  }

  lemma NothingPending(s: State)
    requires Valid(s)
    ensures s.prepIt == 0 ==> Pending(s) == [] && s.log + Pending(s) == s.log
  {
  }

  /** Before the first command of the next app everything of the ones before it has been undone; and so it is after an end. */
  lemma NextStartsClean(ops: seq<Op>, app: App, w: World)
    ensures var l := Launches(ops) + 1;
            After(ops + [Launch(app, w)]).log == Wholes(ops) + (if Launched(app, w) then Up(l, app, w) else Whole(l, app, w))
    ensures After(ops + [End]).log == Wholes(ops)
  {
    hide Up, Undos, Launched;
    EveryLaunchIsWhole(ops);
    assert (ops + [End])[..|ops|] == ops && (ops + [Launch(app, w)])[..|ops|] == ops;
  }

  // ----- What the log says -----

  /** Within a launch prep commands come first, then the detached commands, the app's own, and what undoes the preps. */
  function Stage(e: Entry): nat {
    match e
    case Do(_, _, _) => 0
    case Spawn(_, _, _) => 1
    case Start(_, _) => 2
    case Undo(_, _, _) => 3
  }

  /** e comes before f: of an earlier launch, at an earlier stage, or next to it in the list, which is undone from its end. */
  ghost predicate Precedes(e: Entry, f: Entry) {
    || e.launch < f.launch
    || (e.launch == f.launch && Stage(e) < Stage(f))
    || (e.launch == f.launch && Stage(e) == Stage(f) && match e
        case Start(_, _) => false
        case Undo(_, i, _) => i > f.index
        case _ => e.index < f.index)
  }

  ghost predicate Ordered(s: seq<Entry>) {
    forall a, b :: 0 <= a < b < |s| ==> Precedes(s[a], s[b])
  }

  /** The launch goes on behind a prep command with this outcome: all went well, or the desktop lacked the permission to run it. */
  ghost predicate GoesOn(app: App, o: Outcome) {
    (o.ec == Fine && o.exitCode == 0) || (o.ec == PermissionDenied && app.cmd == "")
  }

  /** The launch moves past the first n preps, and fails at prep n if there is one. */
  ghost predicate MovesPast(app: App, w: World, n: nat) {
    && n <= |app.prep|
    && (forall k :: 0 <= k < n ==> app.prep[k].doCmd == "" || GoesOn(app, w.prepOutcome(k)))
    && (n < |app.prep| ==> app.prep[n].doCmd != "" && !GoesOn(app, w.prepOutcome(n)))
  }

  ghost predicate StaysUp(app: App, w: World) {
    w.displayOk && MovesPast(app, w, |app.prep|) && (app.cmd == "" || w.started)
  }

  /** e is one of the commands that bring the app up: the non-empty preps it moves past and the one it fails at; if it moves past
      them all, every detached command and the app's own, unless that is empty. */
  ghost predicate BringsUp(e: Entry, launch: nat, app: App, w: World) {
    && w.displayOk && e.launch == launch
    && exists n: nat :: MovesPast(app, w, n) &&
         match e
         case Do(_, i, cmd) => i <= n && i < |app.prep| && cmd == app.prep[i].doCmd && cmd != ""
         case Spawn(_, i, cmd) => n == |app.prep| && i < |app.detached| && cmd == app.detached[i]
         case Start(_, cmd) => n == |app.prep| && cmd == app.cmd && cmd != ""
         case Undo(_, _, _) => false
  }

  /** e undoes a prep that the launch moved past. */
  ghost predicate Undoes(e: Entry, launch: nat, app: App, w: World) {
    && w.displayOk && e.Undo? && e.launch == launch && e.cmd != ""
    && exists n: nat :: MovesPast(app, w, n) && e.index < n && e.cmd == app.prep[e.index].undoCmd
  }

  /** Operation p is the launch e belongs to. It brought the app up as far as it would; the undo commands have run if the launch
      failed or something was done after it. */
  ghost predicate Ran(ops: seq<Op>, p: int, e: Entry) {
    && 0 <= p < |ops| && ops[p].Launch?
    && var l, app, w := Launches(ops[..p + 1]), ops[p].app, ops[p].w;
       BringsUp(e, l, app, w) || (Undoes(e, l, app, w) && (p + 1 < |ops| || !StaysUp(app, w)))
  }

  /** The log lists exactly these commands, each once and in this order. */
  ghost predicate LogSays(ops: seq<Op>, log: seq<Entry>) {
    Ordered(log) && forall e :: e in log <==> exists p :: Ran(ops, p, e)
  }

  lemma OrderedJoined(s: seq<Entry>, t: seq<Entry>)
    requires Ordered(s) && Ordered(t) && forall e, f :: e in s && f in t ==> Precedes(e, f)
    ensures Ordered(s + t)
  {
    hide Precedes;
    assert forall k :: 0 <= k < |s| ==> s[k] in s;
    assert forall k :: 0 <= k < |t| ==> t[k] in t;
  }

  lemma OrderedOne(s: seq<Entry>)
    requires |s| <= 1
    ensures Ordered(s)
  {
  }

  /** The undo commands run are those of the preps passed, each once, and in the opposite order. */
  lemma {:induction false} UndosExactly(launch: nat, prep: seq<Prep>, n: nat)
    requires n <= |prep|
    ensures forall e :: e in Undos(launch, prep, n) <==>
      e.Undo? && e.launch == launch && e.index < n && e.cmd == prep[e.index].undoCmd && e.cmd != ""
    ensures Ordered(Undos(launch, prep, n))
  {
    hide Ordered;
    OrderedOne([]);
    if n > 0 {
      var e, before := Undo(launch, n - 1, prep[n - 1].undoCmd), Undos(launch, prep, n - 1);
      UndosExactly(launch, prep, n - 1);
      if e.cmd != "" {
        OrderedOne([e]);
        OrderedJoined([e], before);
      }
    }
  }

  /** And the prep commands run are those of the first n, each once and in order. */
  lemma {:induction false} DosExactly(launch: nat, prep: seq<Prep>, n: nat)
    requires n <= |prep|
    ensures forall e :: e in Dos(launch, prep, n) <==>
      e.Do? && e.launch == launch && e.index < n && e.cmd == prep[e.index].doCmd && e.cmd != ""
    ensures Ordered(Dos(launch, prep, n))
  {
    hide Ordered;
    OrderedOne([]);
    if n > 0 {
      var e, before := Do(launch, n - 1, prep[n - 1].doCmd), Dos(launch, prep, n - 1);
      DosExactly(launch, prep, n - 1);
      if e.cmd != "" {
        OrderedOne([e]);
        OrderedJoined(before, [e]);
      }
    }
  }

  lemma {:induction false} SpawnsExactly(launch: nat, detached: seq<string>, n: nat)
    requires n <= |detached|
    ensures forall e :: e in Spawns(launch, detached, n) <==> e.Spawn? && e.launch == launch && e.index < n && e.cmd == detached[e.index]
    ensures Ordered(Spawns(launch, detached, n))
  {
    hide Ordered;
    OrderedOne([]);
    if n > 0 {
      var e, before := Spawn(launch, n - 1, detached[n - 1]), Spawns(launch, detached, n - 1);
      SpawnsExactly(launch, detached, n - 1);
      OrderedOne([e]);
      OrderedJoined(before, [e]);
    }
  }

  lemma PassesGoesOn(app: App, o: Outcome)
    ensures Passes(app, o) <==> GoesOn(app, o)
  {
  }

  lemma MovesPastPassed(app: App, w: World)
    requires w.displayOk
    ensures forall n: nat :: MovesPast(app, w, n) <==> n == Passed(app, w)
  {
    hide Passes, GoesOn;
    forall k: nat
      ensures Passes(app, w.prepOutcome(k)) <==> GoesOn(app, w.prepOutcome(k))
    {
      PassesGoesOn(app, w.prepOutcome(k));
    }
    var n := Passed(app, w);
    assert MovesPast(app, w, n);
  }

  lemma StaysUpLaunched(app: App, w: World)
    ensures StaysUp(app, w) <==> Launched(app, w)
  {
    hide MovesPast, Passed;
    if w.displayOk {
      MovesPastPassed(app, w);
    }
  }

  lemma UpExactly(launch: nat, app: App, w: World)
    ensures Ordered(Up(launch, app, w)) && forall e :: e in Up(launch, app, w) <==> BringsUp(e, launch, app, w)
  {
    hide Dos, Spawns, Passed, MovesPast, Ordered;
    OrderedOne([]);
    if w.displayOk {
      MovesPastPassed(app, w);
      var n := Passed(app, w);
      assert MovesPast(app, w, n);
      var m := if n < |app.prep| then n + 1 else n;
      DosExactly(launch, app.prep, m);
      if n == |app.prep| {
        var d, sp := Dos(launch, app.prep, m), Spawns(launch, app.detached, |app.detached|);
        var st := if app.cmd == "" then [] else [Start(launch, app.cmd)];
        SpawnsExactly(launch, app.detached, |app.detached|);
        OrderedJoined(d, sp);
        OrderedOne(st);
        OrderedJoined(d + sp, st);
      }
    }
  }

  lemma DownExactly(launch: nat, app: App, w: World)
    ensures var u := Undos(launch, app.prep, Passed(app, w));
      Ordered(u) && forall e :: e in u <==> Undoes(e, launch, app, w)
  {
    hide MovesPast, Ordered;
    UndosExactly(launch, app.prep, Passed(app, w));
    if w.displayOk {
      hide Undos, Passed;
      MovesPastPassed(app, w);
      assert MovesPast(app, w, Passed(app, w));
    } else {
      assert Passed(app, w) == 0;
    }
  }

  lemma WholeExactly(launch: nat, app: App, w: World)
    ensures Ordered(Whole(launch, app, w))
    ensures forall e :: e in Whole(launch, app, w) <==> BringsUp(e, launch, app, w) || Undoes(e, launch, app, w)
  {
    hide Ordered, Up, Undos, Passed, MovesPast;
    UpExactly(launch, app, w);
    DownExactly(launch, app, w);
    OrderedJoined(Up(launch, app, w), Undos(launch, app.prep, Passed(app, w)));
  }

  /** e belongs to operation p, and will have been run once what is pending has been. */
  ghost predicate Runs(ops: seq<Op>, p: int, e: Entry) {
    && 0 <= p < |ops| && ops[p].Launch?
    && var l := Launches(ops[..p + 1]);
       BringsUp(e, l, ops[p].app, ops[p].w) || Undoes(e, l, ops[p].app, ops[p].w)
  }

  lemma RunsBefore(ops: seq<Op>, op: Op, e: Entry)
    ensures forall p: nat :: p < |ops| ==> (Runs(ops + [op], p, e) <==> Runs(ops, p, e)) && (Ran(ops + [op], p, e) <==> Runs(ops, p, e))
  {
    hide Launches, BringsUp, Undoes;
    forall p: nat | p < |ops|
      ensures (Runs(ops + [op], p, e) <==> Runs(ops, p, e)) && (Ran(ops + [op], p, e) <==> Runs(ops, p, e))
    {
      assert (ops + [op])[..p + 1] == ops[..p + 1];
    }
  }

  lemma {:induction false} WholesExactly(ops: seq<Op>)
    ensures Ordered(Wholes(ops)) && forall e :: e in Wholes(ops) <==> exists p :: Runs(ops, p, e)
    ensures forall e :: e in Wholes(ops) ==> e.launch <= Launches(ops)
  {
    if ops == [] {
      assert Wholes(ops) == [];
    } else {
      var n := |ops| - 1;
      var init, last := ops[..n], ops[n];
      WholesExactly(init);
      hide Ordered, BringsUp, Undoes, Whole;
      assert ops == init + [last] && ops[..n + 1] == ops;
      var l := Launches(ops);
      if last.Launch? {
        WholeExactly(l, last.app, last.w);
        LaunchOfRun(l, last.app, last.w);
        OrderedJoined(Wholes(init), Whole(l, last.app, last.w));
      }
      forall e
        ensures e in Wholes(ops) <==> exists p :: Runs(ops, p, e)
      {
        RunsBefore(init, last, e);
        if e in Wholes(init) {
          var p :| Runs(init, p, e);
          assert Runs(ops, p, e);
        }
        if last.Launch? && e in Whole(l, last.app, last.w) {
          assert Runs(ops, n, e);
        }
        if p :| Runs(ops, p, e) {
          assert p < n ==> Runs(init, p, e);
        }
      }
    }
  }

  lemma LaunchOfRun(l: nat, app: App, w: World)
    ensures forall e :: BringsUp(e, l, app, w) || Undoes(e, l, app, w) ==> e.launch == l
  {
  }

  /** In every run: the log lists, launch by launch, exactly the commands that brought the app up and, unless the app is still up,
      exactly those that undo the preps it moved past, the last prep first. */
  lemma LogExactly(ops: seq<Op>)
    ensures LogSays(ops, After(ops).log)
  {
    hide Ordered, Whole, Up, Step, StaysUp, Launched, BringsUp, Undoes;
    if ops == [] {
      OrderedOne([]);
    } else {
      var n := |ops| - 1;
      var init, last := ops[..n], ops[n];
      assert ops == init + [last] && ops[..n + 1] == ops;
      WholesExactly(init);
      if last.End? {
        NextStartsClean(init, NO_APP, World(false, _ => Outcome(Fine, 0), false));
        forall e
          ensures e in After(ops).log <==> exists p :: Ran(ops, p, e)
        {
          LaterRan(init, last, e);
        }
      } else {
        LaunchLog(init, last.app, last.w);
      }
    }
  }

  lemma LaterRan(init: seq<Op>, op: Op, e: Entry)
    ensures (exists p :: Runs(init, p, e)) <==> exists p :: 0 <= p < |init| && Ran(init + [op], p, e)
  {
    hide Runs, Ran;
    RunsBefore(init, op, e);
    RunsWithin(init, e);
  }

  lemma RunsWithin(ops: seq<Op>, e: Entry)
    ensures forall p :: Runs(ops, p, e) ==> 0 <= p < |ops|
  {
  }

  lemma LaunchLog(init: seq<Op>, app: App, w: World)
    ensures LogSays(init + [Launch(app, w)], After(init + [Launch(app, w)]).log)
  {
    hide Ordered, Whole, Up, Step, StaysUp, Launched, BringsUp, Undoes;
    var ops, n := init + [Launch(app, w)], |init|;
    var l := Launches(init) + 1;
    assert ops[..n + 1] == ops && ops[..n] == init;
    NextStartsClean(init, app, w);
    WholesExactly(init);
    StaysUpLaunched(app, w);
    LaunchOfRun(l, app, w);
    var last := if Launched(app, w) then Up(l, app, w) else Whole(l, app, w);
    UpExactly(l, app, w);
    WholeExactly(l, app, w);
    OrderedJoined(Wholes(init), last);
    forall e
      ensures e in After(ops).log <==> exists p :: Ran(ops, p, e)
    {
      LaterRan(init, ops[n], e);
      assert Ran(ops, n, e) <==> e in last;
      if e in last {
        assert Ran(ops, n, e);
      }
      if p :| Ran(ops, p, e) {
        assert p < n || p == n;
      }
    }
  }

  /** No command of any launch is run or undone twice in any run. */
  lemma NothingTwice(ops: seq<Op>)
    ensures NoRepeat(After(ops).log)
  {
    LogExactly(ops);
  }

  // ----- The runner -----

  class Proc {
    var app: App
    var prepIt: nat
    var launch: nat // launches so far
    var placebo: bool
    var process: bool
    var log: seq<Entry>

    ghost predicate Valid()
      reads this
    {
      prepIt <= |app.prep|
    }

    function Now(): State
      reads this
    {
      State(launch, app, prepIt, log)
    }

    constructor ()
      ensures Valid() && Now() == After([])
    {
      app, prepIt, launch, placebo, process, log := NO_APP, 0, 0, false, false, [];
    }

    /** Ends the app. How an undo command went makes no difference. */
    method Terminate()
      requires Valid()
      modifies this`app, this`prepIt, this`placebo, this`process, this`log
      ensures Valid() && Now() == Step(old(Now()), End)
      ensures forall ops :: old(Now()) == After(ops) ==> LogSays(ops + [End], log)
      ensures !placebo && !process
    {
      LogGoesOn(Now(), End);
      placebo, process := false, false;
      while prepIt != 0
        invariant Valid() && app == old(app)
        invariant log + Pending(Now()) == old(log + Pending(Now()))
        invariant !placebo && !process
      {
        var cmd := app.prep[prepIt - 1];
        if cmd.undoCmd != "" {
          MoveEntry(log, Undo(launch, prepIt - 1, cmd.undoCmd), Undos(launch, app.prep, prepIt - 1));
          log := log + [Undo(launch, prepIt - 1, cmd.undoCmd)];
        }
        prepIt := prepIt - 1;
      }
      app := NO_APP;
    }

    /** The prep loop. */
    method RunPreps(w: World) returns (ok: bool)
      requires Valid() && prepIt == 0 && w.displayOk
      modifies this`prepIt, this`log
      ensures Valid() && prepIt == Passed(app, w) && (ok <==> prepIt == |app.prep|)
      ensures log == old(log) + Dos(launch, app.prep, if ok then prepIt else prepIt + 1)
    {
      hide Dos, PassedFrom, Passes;
      NoDos(launch, app.prep);
      while prepIt != |app.prep|
        invariant Valid() && PassedFrom(app, w, prepIt) == PassedFrom(app, w, 0)
        invariant log == old(log) + Dos(launch, app.prep, prepIt)
        decreases |app.prep| - prepIt
      {
        var cmd := app.prep[prepIt];
        PassedStep(app, w, prepIt);
        DosStep(old(log), launch, app.prep, prepIt);
        if cmd.doCmd == "" {
          prepIt := prepIt + 1;
          continue;
        }
        var outcome := w.prepOutcome(prepIt);
        PassesMeans(app, outcome);
        log := log + [Do(launch, prepIt, cmd.doCmd)];
        if outcome.ec != Fine {
          if !(app.cmd == "" && outcome.ec == PermissionDenied) {
            return false;
          }
        }
        if outcome.exitCode != 0 && outcome.ec != PermissionDenied {
          return false;
        }
        prepIt := prepIt + 1;
      }
      ok := true;
    }

    method SpawnDetached()
      modifies this`log
      ensures log == old(log) + Spawns(launch, app.detached, |app.detached|)
    {
      for i := 0 to |app.detached|
        invariant log == old(log) + Spawns(launch, app.detached, i)
      {
        log := log + [Spawn(launch, i, app.detached[i])];
      }
    }

    /** Starts an app, after ending the one before; whatever fails on the way ends it again at once. */
    method Execute(next: App, w: World) returns (code: int)
      requires Valid()
      modifies this
      ensures Valid() && Now() == Step(old(Now()), Launch(next, w))
      ensures forall ops :: old(Now()) == After(ops) ==> LogSays(ops + [Launch(next, w)], log)
      ensures code == if !w.displayOk then 503 else if StaysUp(next, w) then 0 else -1
      ensures placebo <==> code == 0 && next.cmd == ""
    {
      hide Up, Undos, Passed, StaysUp;
      LogGoesOn(Now(), Launch(next, w));
      StaysUpLaunched(next, w);
      Terminate();
      launch := launch + 1;
      app := next;
      NothingPending(Now());
      if !w.displayOk {
        NoDisplay(launch, next, w);
        Terminate();
        return 503;
      }
      prepIt := 0;
      var ok := StartUp(w);
      if !ok {
        Bytes.Assoc(old(log + Pending(Now())), Up(launch, next, w), Pending(Now()));
        Terminate();
        return -1;
      }
      code := 0;
    }

    /** Runs the preps, the detached commands and the app's own command. */
    method StartUp(w: World) returns (ok: bool)
      requires Valid() && prepIt == 0 && w.displayOk && !placebo
      modifies this`prepIt, this`log, this`placebo, this`process
      ensures Valid() && log == old(log) + Up(launch, app, w) && prepIt == Passed(app, w)
      ensures ok <==> Launched(app, w)
      ensures placebo <==> ok && app.cmd == ""
    {
      hide Dos, Spawns, Passed;
      ok := RunPreps(w);
      if ok {
        SpawnDetached();
        if app.cmd == "" {
          placebo := true;
        } else {
          log := log + [Start(launch, app.cmd)];
          process := w.started;
          ok := w.started;
        }
      }
    }
  }

  lemma LogGoesOn(s: State, op: Op)
    requires Valid(s)
    ensures forall ops :: s == After(ops) ==> LogSays(ops + [op], Step(s, op).log)
  {
    hide Step, LogSays;
    forall ops | s == After(ops)
      ensures LogSays(ops + [op], Step(s, op).log)
    {
      assert (ops + [op])[..|ops|] == ops;
      LogExactly(ops + [op]);
    }
  }

  lemma NoDos(launch: nat, prep: seq<Prep>)
    ensures Dos(launch, prep, 0) == []
  {
  }

  lemma DosStep(log: seq<Entry>, launch: nat, prep: seq<Prep>, i: nat)
    requires i < |prep|
    ensures log + Dos(launch, prep, i + 1)
      == log + Dos(launch, prep, i) + (if prep[i].doCmd == "" then [] else [Do(launch, i, prep[i].doCmd)])
  {
  }

  lemma PassedStep(app: App, w: World, i: nat)
    requires i < |app.prep|
    ensures PassedFrom(app, w, i) == if app.prep[i].doCmd == "" || Passes(app, w.prepOutcome(i)) then PassedFrom(app, w, i + 1) else i
  {
  }

  lemma PassesMeans(app: App, o: Outcome)
    ensures Passes(app, o) <==>
      !(o.ec != Fine && !(app.cmd == "" && o.ec == PermissionDenied)) && !(o.exitCode != 0 && o.ec != PermissionDenied)
  {
  }

  lemma NoDisplay(launch: nat, app: App, w: World)
    requires !w.displayOk
    ensures Whole(launch, app, w) == [] && !Launched(app, w)
  {
  }

  lemma MoveEntry(log: seq<Entry>, e: Entry, rest: seq<Entry>)
    ensures log + ([e] + rest) == (log + [e]) + rest
  {
  }
}
