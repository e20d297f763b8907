/** Starting and stopping: tasks run in goroutines, report errors on an unbuffered channel and count
    down a wait group, while the caller selects on the channel, the group and its context.  The model
    is a transition system over all interleavings. */
module Bootkit {
  import opened Options

  /** A task: `Sending` waits for a receiver; `Leaving` has returned (and sent) but not yet counted
      down the wait group. */
  datatype Task = NotStarted | Running | Sending(err: string) | Leaving(result: Option<string>) | Finished(result: Option<string>)

  datatype Error = FromTask(err: string) | FromContext

  datatype Caller = Spawning(next: nat) | Selecting | Returned(err: Option<Error>)

  /** One call of `callRunnable` or `callStopHooks`. */
  datatype Call = Call(tasks: seq<Task>, caller: Caller, doneClosed: bool, contextDone: bool)

  function Tasks(n: nat): (r: seq<Task>)
    ensures |r| == n && forall i | 0 <= i < n :: r[i] == NotStarted
  {
    seq(n, _ => NotStarted)
  }

  function Begin(n: nat): Call { Call(Tasks(n), Spawning(0), false, false) }

  datatype Action =
    | Spawn
    | Select
    | ReturnNil(i: nat)
    | ReturnError(i: nat, err: string)
    | Receive(i: nat)
    | CountDown(i: nat)
    | CloseDone
    | TakeDone
    | CancelContext
    | TakeContext

  predicate AllFinished(c: Call) { forall i | 0 <= i < |c.tasks| :: c.tasks[i].Finished? }

  predicate Enabled(c: Call, a: Action) {
    match a
    case Spawn => c.caller.Spawning? && c.caller.next < |c.tasks|
    case Select => c.caller.Spawning? && c.caller.next >= |c.tasks|
    case ReturnNil(i) => i < |c.tasks| && c.tasks[i].Running?
    case ReturnError(i, _) => i < |c.tasks| && c.tasks[i].Running?
    case Receive(i) => c.caller.Selecting? && i < |c.tasks| && c.tasks[i].Sending?
    case CountDown(i) => i < |c.tasks| && c.tasks[i].Leaving?
    case CloseDone => !c.caller.Spawning? && !c.doneClosed && AllFinished(c)
    case TakeDone => c.caller.Selecting? && c.doneClosed
    case CancelContext => !c.contextDone
    case TakeContext => c.caller.Selecting? && c.contextDone
  }

  function Act(c: Call, a: Action): (r: Call)
    requires Enabled(c, a)
    ensures |r.tasks| == |c.tasks|
  {
    match a
    case Spawn => c.(tasks := c.tasks[c.caller.next := Running], caller := Spawning(c.caller.next + 1))
    case Select => c.(caller := Selecting)
    case ReturnNil(i) => c.(tasks := c.tasks[i := Leaving(None)])
    case ReturnError(i, e) => c.(tasks := c.tasks[i := Sending(e)])
    case Receive(i) =>
      var e := c.tasks[i].err;
      c.(tasks := c.tasks[i := Leaving(Some(e))], caller := Returned(Some(FromTask(e))))
    case CountDown(i) => c.(tasks := c.tasks[i := Finished(c.tasks[i].result)])
    case CloseDone => c.(doneClosed := true)
    case TakeDone => c.(caller := Returned(None))
    case CancelContext => c.(contextDone := true)
    case TakeContext => c.(caller := Returned(Some(FromContext)))
  }

  /** Every action of a run is possible when it happens. */
  predicate Possible(c: Call, run: seq<Action>)
    decreases |run|
  {
    run == [] || (Enabled(c, run[0]) && Possible(Act(c, run[0]), run[1..]))
  }

  function After(c: Call, run: seq<Action>): Call
    requires Possible(c, run)
    decreases |run|
  {
    if run == [] then c else After(Act(c, run[0]), run[1..])
  }

  // ----- The invariant of every interleaving

  /** The task has handed its error to the caller. */
  predicate Sent(t: Task) { (t.Leaving? || t.Finished?) && t.result.Some? }

  ghost predicate Sound(c: Call) {
    && (c.caller.Spawning? ==>
          && !c.doneClosed && c.caller.next <= |c.tasks|
          && forall i | 0 <= i < |c.tasks| :: c.tasks[i].NotStarted? <==> i >= c.caller.next)
    && (!c.caller.Spawning? ==> forall i | 0 <= i < |c.tasks| :: !c.tasks[i].NotStarted?)
    && (c.doneClosed ==> AllFinished(c))
    && (forall i | 0 <= i < |c.tasks| && Sent(c.tasks[i]) ::
          c.caller == Returned(Some(FromTask(c.tasks[i].result.value))))
    && (c.caller == Returned(None) ==> AllFinished(c))
    && (c.caller.Returned? && c.caller.err.Some? && c.caller.err.value.FromTask? ==>
          exists i :: 0 <= i < |c.tasks| && Sent(c.tasks[i]))
    && (c.caller == Returned(Some(FromContext)) ==> c.contextDone)
  }

  lemma ActKeepsSound(c: Call, a: Action)
    requires Sound(c) && Enabled(c, a)
    ensures Sound(Act(c, a))
  {
    var r := Act(c, a);
    if c.caller.Returned? && c.caller.err.Some? && c.caller.err.value.FromTask? {
      var i :| 0 <= i < |c.tasks| && Sent(c.tasks[i]);
      assert Sent(r.tasks[i]);
    }
    if a.Receive? { assert Sent(r.tasks[a.i]); }
  }

  lemma {:induction false} RunKeepsSound(c: Call, run: seq<Action>)
    requires Sound(c) && Possible(c, run)
    ensures Sound(After(c, run)) && |After(c, run).tasks| == |c.tasks|
    decreases |run|
  {
    if run != [] {
      ActKeepsSound(c, run[0]);
      RunKeepsSound(Act(c, run[0]), run[1..]);
    }
  }

  /** What the caller's answer means, over every interleaving: nil only if every task returned nil,
      and any error but the context's is one that a task returned. */
  lemma AnswerMeans(n: nat, run: seq<Action>)
    requires Possible(Begin(n), run)
    ensures var c := After(Begin(n), run);
            && |c.tasks| == n
            && (c.caller == Returned(None) ==> forall i | 0 <= i < n :: c.tasks[i] == Finished(None))
            && (forall e | c.caller == Returned(Some(FromTask(e))) ::
                  exists i :: 0 <= i < n && (c.tasks[i] == Leaving(Some(e)) || c.tasks[i] == Finished(Some(e))))
            && (c.caller == Returned(Some(FromContext)) ==> c.contextDone)
  {
    RunKeepsSound(Begin(n), run);
    var c := After(Begin(n), run);
    if c.caller == Returned(None) {
      assert forall i | 0 <= i < n :: !Sent(c.tasks[i]);
    }
    forall e | c.caller == Returned(Some(FromTask(e)))
      ensures exists i :: 0 <= i < n && (c.tasks[i] == Leaving(Some(e)) || c.tasks[i] == Finished(Some(e)))
    {
      var i :| 0 <= i < |c.tasks| && Sent(c.tasks[i]);
      assert c.caller == Returned(Some(FromTask(c.tasks[i].result.value)));
    }
  }

  // ----- What the answer says about the run

  /** What has become of every task, in terms of the actions so far. */
  ghost predicate Recorded(c: Call, run: seq<Action>) {
    && (forall i | 0 <= i < |c.tasks| :: TaskRecorded(c.tasks[i], i, run))
    && (forall i: nat, e | ReturnError(i, e) in run :: i < |c.tasks| && (c.tasks[i].Sending? || Sent(c.tasks[i])))
  }

  ghost predicate TaskRecorded(t: Task, i: nat, run: seq<Action>) {
    match t
    case Sending(e) => ReturnError(i, e) in run
    case Leaving(r) => ResultRecorded(r, i, run)
    case Finished(r) => ResultRecorded(r, i, run)
    case _ => true
  }

  ghost predicate ResultRecorded(r: Option<string>, i: nat, run: seq<Action>) {
    if r.None? then ReturnNil(i) in run else ReturnError(i, r.value) in run && Receive(i) in run
  }

  lemma ActRecorded(c: Call, run: seq<Action>, a: Action)
    requires Sound(c) && Recorded(c, run) && Enabled(c, a)
    ensures Recorded(Act(c, a), run + [a])
  {
    var all := run + [a];
    assert forall x :: x in all <==> x in run || x == a;
    forall i | 0 <= i < |c.tasks| ensures TaskRecorded(Act(c, a).tasks[i], i, all) {
      assert TaskRecorded(c.tasks[i], i, run);
    }
  }

  lemma {:induction false} LastAct(c: Call, run: seq<Action>, a: Action)
    requires Possible(c, run + [a])
    ensures Possible(c, run) && Enabled(After(c, run), a) && After(c, run + [a]) == Act(After(c, run), a)
    decreases |run|
  {
    if run == [] {
      assert (run + [a])[0] == a && (run + [a])[1..] == [];
    } else {
      assert (run + [a])[0] == run[0] && (run + [a])[1..] == run[1..] + [a];
      LastAct(Act(c, run[0]), run[1..], a);
    }
  }

  lemma {:induction false} RunRecorded(n: nat, run: seq<Action>)
    requires Possible(Begin(n), run)
    ensures Recorded(After(Begin(n), run), run)
    decreases |run|
  {
    if run != [] {
      var pre, a := run[..|run| - 1], run[|run| - 1];
      assert run == pre + [a];
      LastAct(Begin(n), pre, a);
      RunRecorded(n, pre);
      RunKeepsSound(Begin(n), pre);
      hide Recorded, Act, Enabled, Sound;
      ActRecorded(After(Begin(n), pre), pre, a);
    }
  }

  /** The law of the answer, on the actions of the run: an error other than the context's is one that
      a task returned and the caller received; nil says that every task returned nil and none an error. */
  lemma AnswerSays(n: nat, run: seq<Action>)
    requires Possible(Begin(n), run)
    ensures var c := After(Begin(n), run);
            && (forall e | c.caller == Returned(Some(FromTask(e))) ::
                  exists i :: 0 <= i < n && ReturnError(i, e) in run && Receive(i) in run)
            && (c.caller == Returned(None) ==>
                  (forall i | 0 <= i < n :: ReturnNil(i) in run) && forall i: nat, e :: ReturnError(i, e) !in run)
  {
    AnswerMeans(n, run);
    RunRecorded(n, run);
    var c := After(Begin(n), run);
    RunKeepsSound(Begin(n), run);
    hide After, Possible;
    forall e | c.caller == Returned(Some(FromTask(e)))
      ensures exists i :: 0 <= i < n && ReturnError(i, e) in run && Receive(i) in run
    {
      var i :| 0 <= i < n && (c.tasks[i] == Leaving(Some(e)) || c.tasks[i] == Finished(Some(e)));
      assert TaskRecorded(c.tasks[i], i, run);
    }
    if c.caller == Returned(None) {
      forall i | 0 <= i < n ensures ReturnNil(i) in run { assert TaskRecorded(c.tasks[i], i, run); }
    }
  }

  // ----- Progress

  /** While the caller has not returned, and no task function is still running, something other than
      the context can move. */
  lemma NeverStuck(c: Call) returns (a: Action)
    requires Sound(c) && !c.caller.Returned?
    requires forall i | 0 <= i < |c.tasks| :: !c.tasks[i].Running?
    ensures Enabled(c, a) && !a.CancelContext? && !a.TakeContext?
  {
    if c.caller.Spawning? {
      a := if c.caller.next < |c.tasks| then Spawn else Select;
    } else if AllFinished(c) {
      a := if c.doneClosed then TakeDone else CloseDone;
    } else {
      var i :| 0 <= i < |c.tasks| && !c.tasks[i].Finished?;
      a := if c.tasks[i].Sending? then Receive(i) else CountDown(i);
    }
  }

  function TaskWork(t: Task): nat {
    match t
    case NotStarted => 4
    case Running => 3
    case Sending(_) => 2
    case Leaving(_) => 1
    case Finished(_) => 0
  }

  function Work(ts: seq<Task>): nat { if ts == [] then 0 else TaskWork(ts[0]) + Work(ts[1..]) }

  function Remaining(c: Call): nat {
    Work(c.tasks)
    + (match c.caller case Spawning(_) => 2 case Selecting => 1 case Returned(_) => 0)
    + (if c.doneClosed then 0 else 1) + (if c.contextDone then 0 else 1)
  }

  lemma {:induction false} WorkUpdate(ts: seq<Task>, i: nat, t: Task)
    requires i < |ts|
    ensures Work(ts[i := t]) == Work(ts) - TaskWork(ts[i]) + TaskWork(t)
  {
    if i == 0 {
      assert ts[0 := t][1..] == ts[1..];
    } else {
      assert ts[i := t][1..] == ts[1..][i - 1 := t];
      WorkUpdate(ts[1..], i - 1, t);
    }
  }

  lemma ActMakesProgress(c: Call, a: Action)
    requires Sound(c) && Enabled(c, a)
    ensures Remaining(Act(c, a)) < Remaining(c)
  {
    var r := Act(c, a);
    match a
    case Spawn => WorkUpdate(c.tasks, c.caller.next, Running);
    case ReturnNil(i) => WorkUpdate(c.tasks, i, r.tasks[i]);
    case ReturnError(i, _) => WorkUpdate(c.tasks, i, r.tasks[i]);
    case Receive(i) => WorkUpdate(c.tasks, i, r.tasks[i]);
    case CountDown(i) => WorkUpdate(c.tasks, i, r.tasks[i]);
    case _ =>
  }

  lemma {:induction false} WorkOfTasks(ts: seq<Task>)
    requires forall i | 0 <= i < |ts| :: ts[i] == NotStarted
    ensures Work(ts) == 4 * |ts|
  {
    if ts != [] { WorkOfTasks(ts[1..]); }
  }

  /** Every run with `n` tasks ends: it has at most 4 n + 4 actions. */
  lemma {:induction false} RunsAreBounded(c: Call, run: seq<Action>)
    requires Sound(c) && Possible(c, run)
    ensures |run| <= Remaining(c)
    ensures forall n: nat | c == Begin(n) :: |run| <= 4 * n + 4
    decreases |run|
  {
    if run != [] {
      ActMakesProgress(c, run[0]);
      ActKeepsSound(c, run[0]);
      RunsAreBounded(Act(c, run[0]), run[1..]);
    }
    forall n: nat | c == Begin(n) ensures Remaining(c) == 4 * n + 4 { WorkOfTasks(c.tasks); }
  }

  /** The price: once the caller has returned, a task that still wants to report an error waits for
      ever, and the wait group never reaches zero. */
  lemma {:induction false} LateErrorsLeak(c: Call, i: nat, run: seq<Action>)
    requires Sound(c) && Possible(c, run) && c.caller.Returned? && i < |c.tasks| && c.tasks[i].Sending?
    ensures var r := After(c, run);
            i < |r.tasks| && r.tasks[i] == c.tasks[i] && r.caller == c.caller && !r.doneClosed
    decreases |run|
  {
    if run != [] {
      ActKeepsSound(c, run[0]);
      LateErrorsLeak(Act(c, run[0]), i, run[1..]);
    }
  }

  /** The caller is gone and some task still waits for it. */
  ghost predicate Leaking(c: Call) {
    c.caller.Returned? && exists i :: 0 <= i < |c.tasks| && c.tasks[i].Sending?
  }

  /** Without such a task, the others can return, be counted down and close the wait group. */
  lemma {:induction false} CanFinish(c: Call) returns (run: seq<Action>)
    requires Sound(c) && c.caller.Returned? && !Leaking(c)
    ensures Possible(c, run) && After(c, run).doneClosed
    decreases Remaining(c)
  {
    if c.doneClosed {
      run := [];
    } else if AllFinished(c) {
      run := [CloseDone];
      assert run[1..] == [];
    } else {
      var i :| 0 <= i < |c.tasks| && !c.tasks[i].Finished?;
      assert !c.tasks[i].Sending? && !c.tasks[i].NotStarted?;
      var a := if c.tasks[i].Running? then ReturnNil(i) else CountDown(i);
      ActKeepsSound(c, a);
      ActMakesProgress(c, a);
      var rest := CanFinish(Act(c, a));
      run := [a] + rest;
      assert run[1..] == rest;
    }
  }

  /** After the caller has returned the wait group can still reach zero if and only if no task is
      waiting to report an error. */
  lemma FinishesIff(c: Call)
    requires Sound(c) && c.caller.Returned?
    ensures (exists run :: Possible(c, run) && After(c, run).doneClosed) <==> !Leaking(c)
  {
    if Leaking(c) {
      var i :| 0 <= i < |c.tasks| && c.tasks[i].Sending?;
      forall run | Possible(c, run) ensures !After(c, run).doneClosed { LateErrorsLeak(c, i, run); }
    } else {
      var run := CanFinish(c);
    }
  }

  lemma {:induction false} AfterBoth(c: Call, a: seq<Action>, b: seq<Action>)
    requires Possible(c, a) && Possible(After(c, a), b)
    ensures Possible(c, a + b) && After(c, a + b) == After(After(c, a), b)
    decreases |a|
  {
    if a == [] {
      assert a + b == b;
    } else {
      assert (a + b)[1..] == a[1..] + b && (a + b)[0] == a[0];
      AfterBoth(Act(c, a[0]), a[1..], b);
    }
  }

  /** The first `k` of `n` tasks have been spawned. */
  function Spawned(n: nat, k: nat): Call {
    Call(seq(n, i => if i < k then Running else NotStarted), Spawning(k), false, false)
  }

  lemma {:induction false} SpawnAll(n: nat, k: nat) returns (run: seq<Action>)
    requires k <= n
    ensures Possible(Begin(n), run) && After(Begin(n), run) == Spawned(n, k) && CancelContext !in run
  {
    run := [];
    if k == 0 {
      assert Begin(n).tasks == Spawned(n, 0).tasks;
    } else {
      run := SpawnAll(n, k - 1);
      assert Act(Spawned(n, k - 1), Spawn).tasks == Spawned(n, k).tasks;
      assert [Spawn][1..] == [];
      AfterBoth(Begin(n), run, [Spawn]);
      run := run + [Spawn];
    }
  }

  /** From spawned tasks to a leak in four steps: the context is cancelled before a task fails, or,
      without a cancellation, two tasks fail. */
  lemma LeakingRun(n: nat, cancel: bool) returns (run: seq<Action>)
    requires n >= if cancel then 1 else 2
    ensures Possible(Begin(n), run) && Leaking(After(Begin(n), run)) && (cancel || CancelContext !in run)
  {
    var pre := SpawnAll(n, n);
    var c0 := Spawned(n, n);
    var c1 := Act(c0, Select);
    var more := if cancel then [Select, CancelContext, TakeContext, ReturnError(0, "a")]
                else [Select, ReturnError(0, "a"), ReturnError(1, "b"), Receive(0)];
    var c2 := Act(c1, more[1]);
    var c3 := Act(c2, more[2]);
    var c4 := Act(c3, more[3]);
    Four(c0, more);
    assert c4.tasks[if cancel then 0 else 1].Sending?;
    AfterBoth(Begin(n), pre, more);
    run := pre + more;
  }

  lemma Four(c: Call, m: seq<Action>)
    requires |m| == 4 && Enabled(c, m[0]) && Enabled(Act(c, m[0]), m[1]) && Enabled(Act(Act(c, m[0]), m[1]), m[2])
    requires Enabled(Act(Act(Act(c, m[0]), m[1]), m[2]), m[3])
    ensures Possible(c, m) && After(c, m) == Act(Act(Act(Act(c, m[0]), m[1]), m[2]), m[3])
  {
    hide Act, Enabled;
    var c1 := Act(c, m[0]);
    var c2 := Act(c1, m[1]);
    var c3 := Act(c2, m[2]);
    assert m[3..][1..] == [] && Possible(c3, m[3..]) && After(c3, m[3..]) == Act(c3, m[3]);
    assert m[2..][1..] == m[3..] && Possible(c2, m[2..]) && After(c2, m[2..]) == Act(c3, m[3]);
    assert m[1..][1..] == m[2..] && Possible(c1, m[1..]) && After(c1, m[1..]) == Act(c3, m[3]);
  }

  lemma {:induction false} NoCancellation(c: Call, run: seq<Action>)
    requires Possible(c, run) && CancelContext !in run && !c.contextDone
    ensures !After(c, run).contextDone
    decreases |run|
  {
    if run != [] {
      assert run[0] in run && forall a | a in run[1..] :: a in run;
      NoCancellation(Act(c, run[0]), run[1..]);
    }
  }

  /** A run of `n` tasks that ends in a leak. */
  ghost predicate Leaks(n: nat, run: seq<Action>) { Possible(Begin(n), run) && Leaking(After(Begin(n), run)) }

  /** When the leak can happen: with any task at all if the context may be cancelled, and without a
      cancellation exactly when there are two tasks or more. */
  lemma LeakReachable(n: nat)
    ensures (exists run :: Leaks(n, run)) <==> n >= 1
    ensures (exists run :: Leaks(n, run) && CancelContext !in run) <==> n >= 2
  {
    if n >= 1 {
      var run := LeakingRun(n, true);
      assert Leaks(n, run);
    }
    if n >= 2 {
      var run := LeakingRun(n, false);
      assert Leaks(n, run);
    }
    forall run | Leaks(n, run) ensures n >= 1 && (CancelContext in run || n >= 2) {
      RunKeepsSound(Begin(n), run);
      if CancelContext !in run {
        NoCancellation(Begin(n), run);
        OneTaskIsHeard(After(Begin(n), run));
      }
    }
  }

  lemma OneTaskIsHeard(c: Call)
    requires Sound(c) && Leaking(c) && !c.contextDone
    ensures |c.tasks| >= 2
  {
    var i :| 0 <= i < |c.tasks| && c.tasks[i].Sending?;
    assert c.caller == Returned(c.caller.err) && c.caller != Returned(None);
    assert c.caller.err == Some(c.caller.err.value) && c.caller.err.value != FromContext;
    var j :| 0 <= j < |c.tasks| && Sent(c.tasks[j]);
  }

  // ----- Start

  /** `Start`: the runnables, then, if all went well, the start hooks, and in every case the stop hooks. */
  datatype Phase = CallingRunnables | HooksLaunched | Stopping(stop: Call)

  datatype Boot = Boot(run: Call, phase: Phase, launched: bool)

  datatype Move = InRun(a: Action) | Launch | GiveUp(hooks: nat) | Leave(hooks: nat) | InStop(b: Action)

  predicate MayMove(s: Boot, m: Move) {
    match m
    case InRun(a) => Enabled(s.run, a)
    case Launch => s.phase.CallingRunnables? && s.run.caller == Returned(None)
    case GiveUp(_) => s.phase.CallingRunnables? && s.run.caller.Returned? && s.run.caller.err.Some?
    case Leave(_) => s.phase.HooksLaunched?
    case InStop(b) => s.phase.Stopping? && Enabled(s.phase.stop, b)
  }

  /** A start error, the end of all start hooks or a cancellation leads from launched hooks to the
      stop hooks; so does a failed call of the runnables, without a launch. */
  function DoMove(s: Boot, m: Move): Boot
    requires MayMove(s, m)
  {
    match m
    case InRun(a) => s.(run := Act(s.run, a))
    case Launch => s.(phase := HooksLaunched, launched := true)
    case GiveUp(hooks) => s.(phase := Stopping(Begin(hooks)))
    case Leave(hooks) => s.(phase := Stopping(Begin(hooks)))
    case InStop(b) => s.(phase := Stopping(Act(s.phase.stop, b)))
  }

  predicate MayAll(s: Boot, ms: seq<Move>)
    decreases |ms|
  {
    ms == [] || (MayMove(s, ms[0]) && MayAll(DoMove(s, ms[0]), ms[1..]))
  }

  function DoAll(s: Boot, ms: seq<Move>): Boot
    requires MayAll(s, ms)
    decreases |ms|
  {
    if ms == [] then s else DoAll(DoMove(s, ms[0]), ms[1..])
  }

  function Boots(n: nat): Boot { Boot(Begin(n), CallingRunnables, false) }

  ghost predicate BootSound(s: Boot) {
    && Sound(s.run)
    && (s.phase.HooksLaunched? ==> s.launched)
    && (s.launched ==> s.run.caller == Returned(None) && !s.phase.CallingRunnables?)
    && (s.phase.Stopping? ==> Sound(s.phase.stop))
  }

  lemma BootStep(s: Boot, m: Move)
    requires BootSound(s) && MayMove(s, m)
    ensures BootSound(DoMove(s, m))
  {
    match m
    case InRun(a) => ActKeepsSound(s.run, a);
    case InStop(b) => ActKeepsSound(s.phase.stop, b);
    case _ =>
  }

  lemma {:induction false} BootRun(s: Boot, ms: seq<Move>)
    requires BootSound(s) && MayAll(s, ms)
    ensures BootSound(DoAll(s, ms))
    decreases |ms|
  {
    if ms != [] {
      BootStep(s, ms[0]);
      BootRun(DoMove(s, ms[0]), ms[1..]);
    }
  }

  /** Over every interleaving of `Start`: the start hooks are launched only after every runnable has
      returned without an error, and the stop hooks' answer is nil only if every stop hook's was. */
  lemma HooksNeedAllRunnables(n: nat, ms: seq<Move>)
    requires MayAll(Boots(n), ms)
    ensures var s := DoAll(Boots(n), ms);
            && (s.launched ==> forall i | 0 <= i < |s.run.tasks| :: s.run.tasks[i] == Finished(None))
            && (s.phase.Stopping? && s.phase.stop.caller == Returned(None) ==>
                  forall i | 0 <= i < |s.phase.stop.tasks| :: s.phase.stop.tasks[i] == Finished(None))
  {
    BootRun(Boots(n), ms);
    var s := DoAll(Boots(n), ms);
    if s.launched { NilMeansAll(s.run); }
    if s.phase.Stopping? && s.phase.stop.caller == Returned(None) { NilMeansAll(s.phase.stop); }
  }

  lemma NilMeansAll(c: Call)
    requires Sound(c) && c.caller == Returned(None)
    ensures forall i | 0 <= i < |c.tasks| :: c.tasks[i] == Finished(None)
  {
  }

  /** The actions of the runnables, and those of the stop hooks, among the moves of a `Start`. */
  function RunActs(ms: seq<Move>): seq<Action> {
    if ms == [] then []
    else RunActs(ms[..|ms| - 1]) + if ms[|ms| - 1].InRun? then [ms[|ms| - 1].a] else []
  }

  function StopActs(ms: seq<Move>): seq<Action> {
    if ms == [] then []
    else StopActs(ms[..|ms| - 1]) + if ms[|ms| - 1].InStop? then [ms[|ms| - 1].b] else []
  }

  lemma {:induction false} LastMove(s: Boot, ms: seq<Move>, m: Move)
    requires MayAll(s, ms + [m])
    ensures MayAll(s, ms) && MayMove(DoAll(s, ms), m) && DoAll(s, ms + [m]) == DoMove(DoAll(s, ms), m)
    decreases |ms|
  {
    if ms == [] {
      assert (ms + [m])[0] == m && (ms + [m])[1..] == [];
    } else {
      assert (ms + [m])[0] == ms[0] && (ms + [m])[1..] == ms[1..] + [m];
      LastMove(DoMove(s, ms[0]), ms[1..], m);
    }
  }

  lemma OneMoreAct(c: Call, run: seq<Action>, a: Action)
    requires Possible(c, run) && Enabled(After(c, run), a)
    ensures Possible(c, run + [a]) && After(c, run + [a]) == Act(After(c, run), a)
  {
    assert [a][1..] == [];
    AfterBoth(c, run, [a]);
  }

  /** `c` is where the given actions lead a call of some number of tasks. */
  ghost predicate Reached(c: Call, run: seq<Action>) {
    exists n: nat :: Possible(Begin(n), run) && c == After(Begin(n), run)
  }

  lemma ReachedOn(c: Call, run: seq<Action>, a: Action)
    requires Reached(c, run) && Enabled(c, a)
    ensures Reached(Act(c, a), run + [a])
  {
    var n: nat :| Possible(Begin(n), run) && c == After(Begin(n), run);
    OneMoreAct(Begin(n), run, a);
  }

  lemma ReachedBegins(n: nat)
    ensures Reached(Begin(n), [])
  {
    assert Possible(Begin(n), []) && After(Begin(n), []) == Begin(n);
  }

  /** In a `Start` the calls of runnables and of stop hooks are runs of the protocol. */
  lemma {:induction false} BootIs(n: nat, ms: seq<Move>)
    requires MayAll(Boots(n), ms)
    ensures var s := DoAll(Boots(n), ms);
            && Possible(Begin(n), RunActs(ms)) && s.run == After(Begin(n), RunActs(ms))
            && (if s.phase.Stopping? then Reached(s.phase.stop, StopActs(ms)) else StopActs(ms) == [])
    decreases |ms|
  {
    if ms != [] {
      var pre, m := ms[..|ms| - 1], ms[|ms| - 1];
      assert ms == pre + [m];
      LastMove(Boots(n), pre, m);
      BootIs(n, pre);
      var s := DoAll(Boots(n), pre);
      hide After, Possible, Reached, DoAll, MayAll, Act, Enabled;
      assert RunActs(pre) + [] == RunActs(pre) && StopActs(pre) + [] == StopActs(pre);
      match m
      case InRun(a) => OneMoreAct(Begin(n), RunActs(pre), a);
      case InStop(b) => ReachedOn(s.phase.stop, StopActs(pre), b);
      case GiveUp(h) => ReachedBegins(h);
      case Leave(h) => ReachedBegins(h);
      case _ =>
    }
  }

  /** The law of the answer for a call that was reached by `run`. */
  ghost predicate Answered(c: Call, run: seq<Action>) {
    && (forall e | c.caller == Returned(Some(FromTask(e))) ::
          exists i :: 0 <= i < |c.tasks| && ReturnError(i, e) in run && Receive(i) in run)
    && (c.caller == Returned(None) ==>
          (forall i | 0 <= i < |c.tasks| :: ReturnNil(i) in run) && forall i: nat, e :: ReturnError(i, e) !in run)
  }

  lemma ReachedAnswers(c: Call, run: seq<Action>)
    requires Reached(c, run)
    ensures Answered(c, run)
  {
    var n: nat :| Possible(Begin(n), run) && c == After(Begin(n), run);
    AnswerSays(n, run);
    RunKeepsSound(Begin(n), run);
  }

  /** What a `Start` says, on its moves: start hooks are launched only if every runnable returned nil
      and none an error, and the answers of the runnables and of the stop hooks obey the law. */
  lemma StartSays(n: nat, ms: seq<Move>)
    requires MayAll(Boots(n), ms)
    ensures var s := DoAll(Boots(n), ms);
            && (s.launched ==> (forall i | 0 <= i < n :: ReturnNil(i) in RunActs(ms)) && forall i: nat, e :: ReturnError(i, e) !in RunActs(ms))
            && Answered(s.run, RunActs(ms))
            && (s.phase.Stopping? ==> Answered(s.phase.stop, StopActs(ms)))
  {
    BootIs(n, ms);
    BootRun(Boots(n), ms);
    RunKeepsSound(Begin(n), RunActs(ms));
    var s := DoAll(Boots(n), ms);
    hide After, Possible, DoAll, MayAll;
    AnswerSays(n, RunActs(ms));
    if s.phase.Stopping? { ReachedAnswers(s.phase.stop, StopActs(ms)); }
  }

  // ----- Start and Stop under one mutex

  /** The kit: `Start` and `Stop` hold the mutex from beginning to end.  `starts` and `stops` count the
      calls that have returned, `rounds` how often the stop hooks were called, and `cancelled` whether
      a `Stop` has cancelled the kit's own context. */
  datatype Kit = Kit(start: Option<Boot>, stop: Option<Call>, starts: nat, stops: nat, rounds: nat, cancelled: bool)

  predicate New(k: Kit) { k.start.None? && k.stop.None? && k.starts == k.stops == k.rounds == 0 && !k.cancelled }

  datatype Event = LockStart(runnables: nat) | InStart(m: Move) | UnlockStart | LockStop(hooks: nat) | InStopCall(b: Action) | UnlockStop

  predicate CanHappen(k: Kit, e: Event) {
    match e
    case LockStart(_) => k.start.None? && k.stop.None?
    case InStart(m) => k.start.Some? && MayMove(k.start.value, m)
    case UnlockStart => k.start.Some? && k.start.value.phase.Stopping? && k.start.value.phase.stop.caller.Returned?
    case LockStop(_) => k.start.None? && k.stop.None?
    case InStopCall(b) => k.stop.Some? && Enabled(k.stop.value, b)
    case UnlockStop => k.stop.Some? && k.stop.value.caller.Returned?
  }

  function Happens(k: Kit, e: Event): Kit
    requires CanHappen(k, e)
  {
    match e
    case LockStart(n) => k.(start := Some(Boots(n)))
    case InStart(m) => k.(start := Some(DoMove(k.start.value, m)), rounds := k.rounds + if m.GiveUp? || m.Leave? then 1 else 0)
    case UnlockStart => k.(start := None, starts := k.starts + 1)
    case LockStop(hooks) => k.(stop := Some(Begin(hooks)), rounds := k.rounds + 1, cancelled := true)
    case InStopCall(b) => k.(stop := Some(Act(k.stop.value, b)))
    case UnlockStop => k.(stop := None, stops := k.stops + 1)
  }

  predicate CanAll(k: Kit, es: seq<Event>)
    decreases |es|
  {
    es == [] || (CanHappen(k, es[0]) && CanAll(Happens(k, es[0]), es[1..]))
  }

  function HappenAll(k: Kit, es: seq<Event>): Kit
    requires CanAll(k, es)
    decreases |es|
  {
    if es == [] then k else HappenAll(Happens(k, es[0]), es[1..])
  }

  function One(b: bool): nat { if b then 1 else 0 }

  /** Whether the running `Start`, if any, has come to its stop hooks. */
  predicate StartStops(k: Kit) { k.start.Some? && k.start.value.phase.Stopping? }

  ghost predicate KitSound(k: Kit) {
    && (k.start.None? || k.stop.None?)
    && (k.start.Some? ==> BootSound(k.start.value))
    && (k.stop.Some? ==> Sound(k.stop.value))
    && k.rounds == k.starts + One(StartStops(k)) + k.stops + One(k.stop.Some?)
  }

  lemma EventKeepsSound(k: Kit, e: Event)
    requires KitSound(k) && CanHappen(k, e)
    ensures KitSound(Happens(k, e))
  {
    match e
    case InStart(m) => BootStep(k.start.value, m);
    case InStopCall(b) => ActKeepsSound(k.stop.value, b);
    case _ =>
  }

  lemma {:induction false} KitRun(k: Kit, es: seq<Event>)
    requires KitSound(k) && CanAll(k, es)
    ensures KitSound(HappenAll(k, es))
    decreases |es|
  {
    if es != [] {
      hide KitSound, CanHappen, Happens;
      EventKeepsSound(k, es[0]);
      KitRun(Happens(k, es[0]), es[1..]);
    }
  }

  /** Over every interleaving of calls of `Start` and `Stop`: the two never overlap, and the stop hooks
      are called once by every `Start`, at its end, and once more by every `Stop`. */
  lemma HooksStoppedAgain(k: Kit, es: seq<Event>)
    requires New(k) && CanAll(k, es)
    ensures var r := HappenAll(k, es);
            && (r.start.None? || r.stop.None?)
            && (r.start.None? && r.stop.None? ==> r.rounds == r.starts + r.stops)
  {
    hide CanAll, HappenAll, Sound, BootSound;
    KitRun(k, es);
  }

  /** A `Stop` acts only when no `Start` is running: until a running `Start` has returned, nothing that
      happens cancels its context on behalf of a `Stop`, and no `Stop` gets the mutex. */
  lemma {:induction false} StopWaitsForStart(k: Kit, es: seq<Event>)
    requires k.start.Some? && k.stop.None? && CanAll(k, es) && UnlockStart !in es
    ensures var r := HappenAll(k, es);
            && r.start.Some? && r.stop.None? && r.cancelled == k.cancelled && r.stops == k.stops
            && forall hooks :: !CanHappen(r, LockStop(hooks))
    decreases |es|
  {
    if es != [] {
      hide MayMove, DoMove;
      assert es[0] in es && forall e | e in es[1..] :: e in es;
      StopWaitsForStart(Happens(k, es[0]), es[1..]);
    }
  }

  /** The actions of the stop hooks since the last `Stop` got the mutex. */
  function SinceStop(es: seq<Event>): seq<Action> {
    if es == [] then []
    else match es[|es| - 1]
      case LockStop(_) => []
      case InStopCall(b) => SinceStop(es[..|es| - 1]) + [b]
      case _ => SinceStop(es[..|es| - 1])
  }

  lemma {:induction false} LastEvent(k: Kit, es: seq<Event>, e: Event)
    requires CanAll(k, es + [e])
    ensures CanAll(k, es) && CanHappen(HappenAll(k, es), e) && HappenAll(k, es + [e]) == Happens(HappenAll(k, es), e)
    decreases |es|
  {
    if es == [] {
      assert (es + [e])[0] == e && (es + [e])[1..] == [];
    } else {
      assert (es + [e])[0] == es[0] && (es + [e])[1..] == es[1..] + [e];
      LastEvent(Happens(k, es[0]), es[1..], e);
    }
  }

  /** What a `Stop` answers, over every interleaving: an error other than the context's is one that a
      stop hook returned since this `Stop` got the mutex, and nil says that every stop hook of this
      `Stop` returned nil. */
  lemma {:induction false} StopSays(k: Kit, es: seq<Event>)
    requires New(k) && CanAll(k, es)
    ensures var r := HappenAll(k, es); r.stop.Some? ==> Reached(r.stop.value, SinceStop(es)) && Answered(r.stop.value, SinceStop(es))
    decreases |es|
  {
    if es != [] {
      var pre, e := es[..|es| - 1], es[|es| - 1];
      assert es == pre + [e];
      LastEvent(k, pre, e);
      StopSays(k, pre);
      var r0, r := HappenAll(k, pre), HappenAll(k, es);
      hide CanAll, HappenAll, Reached, Answered, Act, Enabled, MayMove, DoMove;
      match e {
        case LockStop(h) => ReachedBegins(h);
        case InStopCall(b) => ReachedOn(r0.stop.value, SinceStop(pre), b);
        case _ =>
      }
      if r.stop.Some? { ReachedAnswers(r.stop.value, SinceStop(es)); }
    }
  }
}
