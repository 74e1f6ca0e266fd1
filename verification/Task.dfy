/**
The periodic task of common/task/task.go as interleaved steps. A call of checkedExecute is a
thread with a program counter; every section under the mutex is one step, except that running
Execute takes two steps with the mutex held in between. Execute does not call Start or Close on
its own task: the mutex is not reentrant, so such a call would never return.
*/
module PeriodicTask {

  /**
  Where a call of checkedExecute is: about to test hasClosed, past the test and about to take
  the mutex, running Execute with the mutex held, or about to clear `running` a second time
  after a failed first Execute.
  */
  datatype Pc = Checking | Passed | Executing | Failing

  /** `first` says whether the call runs Execute; `starts` whether it was made by Start. */
  datatype Call = Call(pc: Pc, first: bool, starts: bool)

  datatype MaybeTimer = NoTimer | Timer(id: nat)

  datatype MaybeCall = Free | HeldBy(id: nat)

  datatype State = State(
    running: bool,
    timer: MaybeTimer,
    armed: set<nat>,
    nextTimer: nat,
    calls: map<nat, Call>,
    lock: MaybeCall)

  const INITIAL := State(false, NoTimer, {}, 0, map[], Free)

  datatype Step =
    | Start(id: nat, first: bool)
    | Check(id: nat)
    | Acquire(id: nat)
    | Finish(id: nat, ok: bool)
    | GiveUp(id: nat)
    | Close
    | Fire(timer: nat, id: nat)

  /** Whether a step can happen: the mutex is free when it is needed, and its call is at the right place. */
  predicate Enabled(s: State, step: Step) {
    match step
    case Start(id, _) => s.lock.Free? && id !in s.calls
    case Check(id) => s.lock.Free? && id in s.calls && s.calls[id].pc.Checking?
    case Acquire(id) => s.lock.Free? && id in s.calls && s.calls[id].pc.Passed?
    case Finish(id, _) => s.lock == HeldBy(id) && id in s.calls && s.calls[id].pc.Executing?
    case GiveUp(id) => s.lock.Free? && id in s.calls && s.calls[id].pc.Failing?
    case Close => s.lock.Free?
    case Fire(timer, id) => timer in s.armed && id !in s.calls
  }

  function Done(s: State, id: nat): State {
    s.(calls := s.calls - {id})
  }

  /** time.AfterFunc: the new timer is the only one the task remembers. */
  function Arm(s: State): State {
    s.(timer := Timer(s.nextTimer), armed := s.armed + {s.nextTimer}, nextTimer := s.nextTimer + 1)
  }

  function Next(s: State, step: Step): State
    requires Enabled(s, step)
  {
    match step
    case Start(id, first) =>
      if s.running then s else s.(running := true, calls := s.calls[id := Call(Checking, first, true)])
    case Check(id) =>
      if s.running then s.(calls := s.calls[id := s.calls[id].(pc := Passed)]) else Done(s, id)
    case Acquire(id) =>
      if s.calls[id].first then s.(lock := HeldBy(id), calls := s.calls[id := s.calls[id].(pc := Executing)])
      else if s.running then Arm(Done(s, id))
      else Done(s, id)
    case Finish(id, ok) =>
      var s' := s.(lock := Free);
      if !ok then
        if s.calls[id].starts then s'.(running := false, calls := s.calls[id := s.calls[id].(pc := Failing)])
        else Done(s', id).(running := false)
      else if s.running then Arm(Done(s', id))
      else Done(s', id)
    case GiveUp(id) => Done(s, id).(running := false)
    case Close =>
      s.(running := false, timer := NoTimer, armed := if s.timer.Timer? then s.armed - {s.timer.id} else s.armed)
    case Fire(timer, id) =>
      s.(armed := s.armed - {timer}, calls := s.calls[id := Call(Checking, true, false)])
  }

  // ---------- the task itself ----------

  /** The task and its outstanding calls; each method is one section under the mutex. */
  class Task {
    var running: bool
    var timer: MaybeTimer
    var armed: set<nat>
    var nextTimer: nat
    var calls: map<nat, Call>
    var access: MaybeCall

    function Abs(): State
      reads this
    {
      State(running, timer, armed, nextTimer, calls, access)
    }

    constructor ()
      ensures Abs() == INITIAL
    {
      running, timer, armed, nextTimer, calls, access := false, NoTimer, {}, 0, map[], Free;
    }

    /** The first section of Start; when it takes effect a call of checkedExecute follows. */
    method Begin(id: nat, first: bool)
      requires Enabled(Abs(), Start(id, first))
      modifies this
      ensures Abs() == Next(old(Abs()), Start(id, first))
    {
      if running {
        return;
      }
      running := true;
      calls := calls[id := Call(Checking, first, true)];
    }

    /** The test at the head of checkedExecute; a closed task ends the call. */
    method HasClosed(id: nat) returns (closed: bool)
      requires Enabled(Abs(), Check(id))
      modifies this
      ensures closed == !old(running)
      ensures Abs() == Next(old(Abs()), Check(id))
    {
      closed := !running;
      calls := if closed then calls - {id} else calls[id := calls[id].(pc := Passed)];
    }

    /** The second section of checkedExecute up to Execute, or to its end when there is nothing to execute. */
    method Lock(id: nat)
      requires Enabled(Abs(), Acquire(id))
      modifies this
      ensures Abs() == Next(old(Abs()), Acquire(id))
    {
      if calls[id].first {
        access := HeldBy(id);
        calls := calls[id := calls[id].(pc := Executing)];
      } else {
        calls := calls - {id};
        if running {
          AfterFunc();
        }
      }
    }

    /** The rest of that section, once Execute has returned. */
    method Unlock(id: nat, ok: bool)
      requires Enabled(Abs(), Finish(id, ok))
      modifies this
      ensures Abs() == Next(old(Abs()), Finish(id, ok))
    {
      access := Free;
      if !ok {
        running := false;
        calls := if calls[id].starts then calls[id := calls[id].(pc := Failing)] else calls - {id};
        return;
      }
      calls := calls - {id};
      if running {
        AfterFunc();
      }
    }

    method AfterFunc()
      modifies this`timer, this`armed, this`nextTimer
      ensures Abs() == Arm(old(Abs()))
    {
      timer := Timer(nextTimer);
      armed := armed + {nextTimer};
      nextTimer := nextTimer + 1;
    }

    /** The last section of a Start whose first Execute failed. */
    method StopAfterError(id: nat)
      requires Enabled(Abs(), GiveUp(id))
      modifies this
      ensures Abs() == Next(old(Abs()), GiveUp(id))
    {
      running := false;
      calls := calls - {id};
    }

    method Shut()
      requires Enabled(Abs(), Close)
      modifies this
      ensures Abs() == Next(old(Abs()), Close)
    {
      running := false;
      if timer.Timer? {
        armed := armed - {timer.id};
        timer := NoTimer;
      }
    }
  }

  // ---------- runs ----------

  predicate CanRun(s: State, steps: seq<Step>)
    decreases steps
  {
    steps != [] ==> Enabled(s, steps[0]) && CanRun(Next(s, steps[0]), steps[1..])
  }

  function Run(s: State, steps: seq<Step>): State
    requires CanRun(s, steps)
    decreases steps
  {
    if steps == [] then s else Run(Next(s, steps[0]), steps[1..])
  }

  // ---------- one Execute at a time ----------

  /** The mutex is held exactly by the one call that is executing; timers have distinct ids. */
  ghost predicate Sound(s: State) {
    && (forall id :: id in s.calls && s.calls[id].pc.Executing? <==> s.lock == HeldBy(id))
    && (forall id :: id in s.calls && s.calls[id].pc.Executing? ==> s.calls[id].first)
    && (forall id :: id in s.calls && s.calls[id].pc.Failing? ==> s.calls[id].starts)
    && (forall t :: t in s.armed ==> t < s.nextTimer)
    && (s.timer.Timer? ==> s.timer.id < s.nextTimer)
  }

  lemma StepKeepsSound(s: State, step: Step)
    requires Sound(s) && Enabled(s, step)
    ensures Sound(Next(s, step))
  {
  }

  lemma {:induction false} RunsAreSound(s: State, steps: seq<Step>)
    requires Sound(s) && CanRun(s, steps)
    ensures Sound(Run(s, steps))
    decreases steps
  {
    if steps != [] {
      StepKeepsSound(s, steps[0]);
      RunsAreSound(Next(s, steps[0]), steps[1..]);
    }
  }

  /** In every interleaving at most one Execute runs, and while it runs nobody takes the mutex. */
  lemma OneExecuteAtATime(steps: seq<Step>, i: nat, j: nat)
    requires CanRun(INITIAL, steps)
    requires var s := Run(INITIAL, steps);
             && i in s.calls && s.calls[i].pc.Executing? && j in s.calls && s.calls[j].pc.Executing?
    ensures i == j && !Enabled(Run(INITIAL, steps), Close)
  {
    RunsAreSound(INITIAL, steps);
  }

  // ---------- who may execute ----------

  predicate Creates(step: Step, id: nat) {
    (step.Start? || step.Fire?) && step.id == id
  }

  /** The present call under this id passed hasClosed while the task was running. */
  ghost predicate SawRunning(steps: seq<Step>, id: nat)
    requires CanRun(INITIAL, steps)
  {
    exists k :: 0 <= k < |steps| && steps[k] == Check(id) && StateAt(steps, k).running
      && forall m :: k < m < |steps| ==> !Creates(steps[m], id)
  }

  lemma {:induction false} PrefixCanRun(s: State, steps: seq<Step>, k: nat)
    requires CanRun(s, steps) && k <= |steps|
    ensures CanRun(s, steps[..k])
    ensures k < |steps| ==> Enabled(Run(s, steps[..k]), steps[k])
    ensures k < |steps| ==> CanRun(s, steps[..k + 1]) && Run(s, steps[..k + 1]) == Next(Run(s, steps[..k]), steps[k])
    decreases k
  {
    if k > 0 {
      PrefixCanRun(Next(s, steps[0]), steps[1..], k - 1);
      assert steps[..k][1..] == steps[1..][..k - 1];
      if k < |steps| {
        assert steps[..k + 1][1..] == steps[1..][..k];
      }
    } else if steps != [] {
      assert steps[..1][1..] == [];
    }
  }

  /** The state after the first k steps. */
  ghost function StateAt(steps: seq<Step>, k: nat): State
    requires CanRun(INITIAL, steps) && k <= |steps|
  {
    PrefixCanRun(INITIAL, steps, k);
    Run(INITIAL, steps[..k])
  }

  /** Every call that executes, or is past the test, saw the task running when it made the test. */
  lemma {:induction false} ExecuteSawRunning(steps: seq<Step>, id: nat)
    requires CanRun(INITIAL, steps)
    requires id in Run(INITIAL, steps).calls && !Run(INITIAL, steps).calls[id].pc.Checking?
    ensures SawRunning(steps, id)
    decreases |steps|
  {
    if steps != [] {
      var n := |steps| - 1;
      PrefixCanRun(INITIAL, steps, n);
      assert steps[..n + 1] == steps;
      var (before, step) := (Run(INITIAL, steps[..n]), steps[n]);
      if step == Check(id) {
        assert StateAt(steps, n) == before;
      } else {
        ExecuteSawRunning(steps[..n], id);
        var k :| 0 <= k < n && steps[..n][k] == Check(id) && StateAt(steps[..n], k).running
          && forall m :: k < m < n ==> !Creates(steps[..n][m], id);
        assert steps[..n][..k] == steps[..k];
        assert StateAt(steps, k).running && steps[k] == Check(id);
        forall m | k < m < |steps|
          ensures !Creates(steps[m], id)
        {
          assert m < n ==> steps[..n][m] == steps[m];
        }
      }
    }
  }

  /** Whether a step makes the call execute: a timer that fires, or a Start that asks for it. */
  predicate AsksToExecute(step: Step) {
    step.Fire? || (step.Start? && step.first)
  }

  /** The latest step that made the present call under this id. */
  ghost predicate MadeAt(steps: seq<Step>, k: nat, id: nat)
    requires CanRun(INITIAL, steps)
  {
    && k < |steps| && Creates(steps[k], id) && (steps[k].Start? ==> !StateAt(steps, k).running)
    && forall m :: k < m < |steps| ==> !(Creates(steps[m], id) && (steps[m].Start? ==> !StateAt(steps, m).running))
  }

  lemma StateAtPrefix(steps: seq<Step>, n: nat, k: nat)
    requires CanRun(INITIAL, steps) && k <= n <= |steps|
    ensures CanRun(INITIAL, steps[..n]) && StateAt(steps[..n], k) == StateAt(steps, k)
  {
    PrefixCanRun(INITIAL, steps, n);
    assert steps[..n][..k] == steps[..k];
  }

  /** An outstanding call runs Execute when it gets the mutex if and only if the step that made it asks for it. */
  lemma {:induction false} ExecutesIffAsked(steps: seq<Step>, id: nat) returns (k: nat)
    requires CanRun(INITIAL, steps) && id in Run(INITIAL, steps).calls
    ensures MadeAt(steps, k, id)
    ensures Run(INITIAL, steps).calls[id].first <==> AsksToExecute(steps[k])
    decreases |steps|
  {
    var n := |steps| - 1;
    PrefixCanRun(INITIAL, steps, n);
    assert steps[..n + 1] == steps;
    var (before, step) := (Run(INITIAL, steps[..n]), steps[n]);
    assert StateAt(steps, n) == before;
    if Creates(step, id) && (step.Start? ==> !before.running) {
      k := n;
    } else {
      k := ExecutesIffAsked(steps[..n], id);
      StateAtPrefix(steps, n, k);
      forall m | k < m < |steps|
        ensures !(Creates(steps[m], id) && (steps[m].Start? ==> !StateAt(steps, m).running))
      {
        if m < n {
          StateAtPrefix(steps, n, m);
          assert steps[..n][m] == steps[m];
        }
      }
    }
  }

  /** A call past its test that takes the mutex begins an Execute if and only if it was asked to. */
  lemma AcquireExecutesIff(steps: seq<Step>, id: nat, k: nat)
    requires CanRun(INITIAL, steps) && MadeAt(steps, k, id) && Enabled(Run(INITIAL, steps), Acquire(id))
    ensures Next(Run(INITIAL, steps), Acquire(id)).lock == HeldBy(id) <==> AsksToExecute(steps[k])
    ensures Begun(Run(INITIAL, steps), [Acquire(id)]) == if AsksToExecute(steps[k]) then 1 else 0
  {
    var k' := ExecutesIffAsked(steps, id);
    assert k == k';
    var s := Run(INITIAL, steps);
    assert [Acquire(id)][1..] == [];
    assert Begun(Next(s, Acquire(id)), []) == 0;
  }

  /**
  One period of a running task: the timer fires, its call finds the task running, executes once,
  and when that succeeds arms the next timer; a failure stops the task instead.
  */
  lemma PeriodExecutesOnce(s: State, t: nat, id: nat, ok: bool)
    requires Sound(s) && s.running && s.lock.Free? && t in s.armed && id !in s.calls
    ensures var steps := [Fire(t, id), Check(id), Acquire(id), Finish(id, ok)];
            && CanRun(s, steps) && Begun(s, steps) == 1
            && Run(s, steps).calls == s.calls && Run(s, steps).running == ok && Run(s, steps).lock.Free?
            && Run(s, steps).armed == s.armed - {t} + if ok then {s.nextTimer} else {}
  {
    var s1 := Next(s, Fire(t, id));
    var s2 := Next(s1, Check(id));
    var s3 := Next(s2, Acquire(id));
    var s4 := Next(s3, Finish(id, ok));
    assert Run(s4, []) == s4 && Begun(s4, []) == 0 && CanRun(s4, []);
    Prepend(s3, Finish(id, ok), []);
    Prepend(s2, Acquire(id), [Finish(id, ok)]);
    Prepend(s1, Check(id), [Acquire(id)] + [Finish(id, ok)]);
    Prepend(s, Fire(t, id), [Check(id)] + ([Acquire(id)] + [Finish(id, ok)]));
    assert [Finish(id, ok)] + [] == [Finish(id, ok)];
    assert [Fire(t, id)] + ([Check(id)] + ([Acquire(id)] + [Finish(id, ok)]))
        == [Fire(t, id), Check(id), Acquire(id), Finish(id, ok)];
    assert s4.calls == s.calls;
  }

  lemma Prepend(s: State, step: Step, rest: seq<Step>)
    requires Enabled(s, step) && CanRun(Next(s, step), rest)
    ensures CanRun(s, [step] + rest) && Run(s, [step] + rest) == Run(Next(s, step), rest)
    ensures Begun(s, [step] + rest) == (if step.Acquire? && s.calls[step.id].first then 1 else 0) + Begun(Next(s, step), rest)
  {
    assert ([step] + rest)[1..] == rest;
  }

  // ---------- after Close ----------

  predicate HasStart(steps: seq<Step>) {
    exists k :: 0 <= k < |steps| && steps[k].Start?
  }

  /** Calls that got past hasClosed and will run Execute once they have the mutex. */
  function Waiting(s: State): set<nat> {
    set id | id in s.calls && s.calls[id].pc.Passed? && s.calls[id].first
  }

  /** How many Executes begin along the steps. */
  function Begun(s: State, steps: seq<Step>): nat
    requires CanRun(s, steps)
    decreases steps
  {
    if steps == [] then 0
    else (if steps[0].Acquire? && s.calls[steps[0].id].first then 1 else 0) + Begun(Next(s, steps[0]), steps[1..])
  }

  /**
  From a stopped task, until the next Start, the task stays stopped, no timer is armed, and at
  most as many Executes begin as there were calls already past hasClosed.
  */
  lemma {:induction false} StoppedTaskWindsDown(s: State, steps: seq<Step>)
    requires Sound(s) && !s.running && CanRun(s, steps) && !HasStart(steps)
    ensures !Run(s, steps).running && Run(s, steps).armed <= s.armed
    ensures Begun(s, steps) + |Waiting(Run(s, steps))| <= |Waiting(s)|
    decreases steps
  {
    if steps != [] {
      var s' := Next(s, steps[0]);
      StepKeepsSound(s, steps[0]);
      assert !steps[0].Start?;
      assert !HasStart(steps[1..]) by {
        assert forall k :: 0 <= k < |steps[1..]| ==> steps[1..][k] == steps[k + 1];
      }
      StoppedTaskWindsDown(s', steps[1..]);
      WaitingShrinks(s, steps[0]);
    }
  }

  lemma WaitingShrinks(s: State, step: Step)
    requires !s.running && Enabled(s, step) && !step.Start?
    ensures |Waiting(Next(s, step))| + (if step.Acquire? && s.calls[step.id].first then 1 else 0) <= |Waiting(s)|
  {
    var s' := Next(s, step);
    if step.Acquire? && s.calls[step.id].first {
      assert Waiting(s') == Waiting(s) - {step.id};
    } else {
      assert Waiting(s') <= Waiting(s);
      Smaller(Waiting(s'), Waiting(s));
    }
  }

  lemma Smaller(a: set<nat>, b: set<nat>)
    requires a <= b
    ensures |a| <= |b|
  {
    assert b == a + (b - a);
  }

  // ---------- when Close leaves no timer armed ----------

  /** A call that may still arm a timer: any but one that is about to give up. */
  predicate May(s: State, id: nat) {
    id in s.calls && !s.calls[id].pc.Failing?
  }

  /** A timer that Close would not stop. */
  predicate Stray(s: State, t: nat) {
    t in s.armed && s.timer != Timer(t)
  }

  /** At most one thing that leads to a next timer: a call, or else a timer. */
  ghost predicate Lone(s: State) {
    && (forall i, j :: i in s.calls && j in s.calls && May(s, i) && May(s, j) ==> i == j)
    && (forall i, t :: i in s.calls && May(s, i) ==> t !in s.armed)
  }

  ghost predicate Closable(s: State) {
    (forall t :: t in s.armed ==> !Stray(s, t)) && (s.running ==> Lone(s))
  }

  /** Whatever happens before the next Start, a Close leaves no timer armed. */
  ghost predicate CloseStaysSafe(s: State) {
    forall steps :: CanRun(s, steps) && !HasStart(steps) && Enabled(Run(s, steps), Close) ==>
      Next(Run(s, steps), Close).armed == {}
  }

  lemma CloseDisarmsUnlessStray(s: State)
    requires Enabled(s, Close)
    ensures Next(s, Close).armed == {} <==> forall t :: !Stray(s, t)
  {
    if t :| Stray(s, t) {
      assert t in Next(s, Close).armed;
    } else {
      assert forall t :: t in s.armed ==> !Stray(s, t);
      assert forall t :: t !in Next(s, Close).armed;
    }
  }

  lemma ArmingKeepsClosable(s: State, id: nat)
    requires Sound(s) && Closable(s) && s.running && May(s, id)
    ensures Closable(Arm(Done(s.(lock := Free), id)))
  {
  }

  lemma StepKeepsClosable(s: State, step: Step)
    requires Sound(s) && Closable(s) && Enabled(s, step) && !step.Start?
    ensures Closable(Next(s, step))
  {
    if s.running && ((step.Acquire? && !s.calls[step.id].first) || (step.Finish? && step.ok)) {
      ArmingKeepsClosable(s, step.id);
      assert Next(s, step) == Arm(Done(s.(lock := Free), step.id));
    }
  }

  lemma {:induction false} RunKeepsClosable(s: State, steps: seq<Step>)
    requires Sound(s) && Closable(s) && CanRun(s, steps) && !HasStart(steps)
    ensures Closable(Run(s, steps))
    decreases steps
  {
    if steps != [] {
      StepKeepsSound(s, steps[0]);
      StepKeepsClosable(s, steps[0]);
      assert !HasStart(steps[1..]) by {
        assert forall k :: 0 <= k < |steps[1..]| ==> steps[1..][k] == steps[k + 1];
      }
      RunKeepsClosable(Next(s, steps[0]), steps[1..]);
    }
  }

  lemma {:induction false} RunsCompose(s: State, a: seq<Step>, b: seq<Step>)
    requires CanRun(s, a) && CanRun(Run(s, a), b)
    ensures CanRun(s, a + b) && Run(s, a + b) == Run(Run(s, a), b)
    decreases a
  {
    if a == [] {
      assert a + b == b;
    } else {
      assert (a + b)[1..] == a[1..] + b;
      RunsCompose(Next(s, a[0]), a[1..], b);
    }
  }

  /** While the task runs and no other call holds the mutex, a call can be driven to arm a timer. */
  lemma {:induction false} DriveToArm(s: State, id: nat) returns (steps: seq<Step>)
    requires Sound(s) && s.running && May(s, id) && (s.lock.Free? || s.lock == HeldBy(id))
    ensures CanRun(s, steps) && !HasStart(steps)
    ensures Run(s, steps) == Arm(Done(s.(lock := Free), id))
    decreases match s.calls[id].pc { case Checking => 3 case Passed => 2 case _ => 1 }
  {
    if s.calls[id].pc.Passed? && !s.calls[id].first {
      steps := [];
      Prepend(s, Acquire(id), steps);
      steps := [Acquire(id)] + steps;
    } else if s.calls[id].pc.Executing? {
      steps := [];
      Prepend(s, Finish(id, true), steps);
      steps := [Finish(id, true)] + steps;
    } else {
      var step := if s.calls[id].pc.Checking? then Check(id) else Acquire(id);
      StepKeepsSound(s, step);
      steps := DriveToArm(Next(s, step), id);
      assert Done(Next(s, step).(lock := Free), id) == Done(s.(lock := Free), id);
      Prepend(s, step, steps);
      steps := [step] + steps;
    }
  }

  /** A timer armed beside the remembered one stays armed when the mutex is released and Close is called. */
  lemma StrayEscapes(s: State, t: nat) returns (steps: seq<Step>)
    requires Sound(s) && Stray(s, t)
    ensures CanRun(s, steps) && !HasStart(steps)
    ensures Enabled(Run(s, steps), Close) && Next(Run(s, steps), Close).armed != {}
  {
    steps := [];
    if s.lock.HeldBy? {
      var step := Finish(s.lock.id, true);
      Prepend(s, step, steps);
      steps := [step] + steps;
    }
    CloseDisarmsUnlessStray(Run(s, steps));
    assert Stray(Run(s, steps), t);
  }

  lemma DoneKeepsOthers(s: State, id: nat, other: nat)
    requires May(s, other) && other != id
    ensures May(Arm(Done(s.(lock := Free), id)), other)
  {
  }

  /** A running task with a call beside a timer, or beside another call, can come to a stray timer. */
  lemma {:induction false} CrowdEscapes(s: State) returns (steps: seq<Step>)
    requires Sound(s) && s.running && !Lone(s)
    ensures CanRun(s, steps) && !HasStart(steps)
    ensures Enabled(Run(s, steps), Close) && Next(Run(s, steps), Close).armed != {}
    decreases if s.armed == {} then 1 else 0
  {
    var id :| May(s, id) && (s.lock.Free? || s.lock == HeldBy(id));
    var driven := DriveToArm(s, id);
    var s' := Run(s, driven);
    RunsAreSound(s, driven);
    var more;
    if t :| t in s.armed {
      assert Stray(s', t);
      more := StrayEscapes(s', t);
    } else {
      var other :| May(s, other) && other != id;
      DoneKeepsOthers(s, id, other);
      assert May(s', other) && s.nextTimer in s'.armed;
      more := CrowdEscapes(s');
    }
    RunsCompose(s, driven, more);
    steps := driven + more;
  }

  /**
  The next Close can leave a timer armed: after a Start that comes while an earlier call is still
  past hasClosed, two calls arm one each and only the second is remembered.
  */
  lemma CloseCanLeaveATimerArmed() returns (steps: seq<Step>)
    ensures CanRun(INITIAL, steps + [Close])
    ensures !Run(INITIAL, steps + [Close]).running && Run(INITIAL, steps + [Close]).armed != {}
  {
    var (early, late) := (Call(Passed, false, true), Call(Checking, false, true));
    var s1 := State(true, NoTimer, {}, 0, map[0 := late], Free);
    var s2 := State(true, NoTimer, {}, 0, map[0 := early], Free);
    var s3 := State(false, NoTimer, {}, 0, map[0 := early], Free);
    var s4 := State(true, NoTimer, {}, 0, map[0 := early, 1 := late], Free);
    assert s4 == Next(s3, Start(1, false)) && s3 == Next(s2, Close) && s2 == Next(s1, Check(0));
    assert s1 == Next(INITIAL, Start(0, false));
    assert May(s4, 0) && May(s4, 1);
    steps := CrowdEscapes(s4);
    RunsCompose(s4, steps, [Close]);
    Prepend(s3, Start(1, false), steps + [Close]);
    Prepend(s2, Close, [Start(1, false)] + (steps + [Close]));
    Prepend(s1, Check(0), [Close] + ([Start(1, false)] + (steps + [Close])));
    Prepend(INITIAL, Start(0, false), [Check(0)] + ([Close] + ([Start(1, false)] + (steps + [Close]))));
    assert [Start(0, false)] + ([Check(0)] + ([Close] + ([Start(1, false)] + (steps + [Close]))))
        == [Start(0, false), Check(0), Close, Start(1, false)] + steps + [Close];
    steps := [Start(0, false), Check(0), Close, Start(1, false)] + steps;
  }

  /**
  From a state on, no Close before the next Start leaves a timer armed if and only if no armed
  timer is forgotten and, while the task runs, at most one call or timer leads to a next timer.
  */
  lemma CloseStaysSafeIff(s: State)
    requires Sound(s)
    ensures CloseStaysSafe(s) <==> Closable(s)
  {
    if Closable(s) {
      forall steps | CanRun(s, steps) && !HasStart(steps) && Enabled(Run(s, steps), Close)
        ensures Next(Run(s, steps), Close).armed == {}
      {
        RunKeepsClosable(s, steps);
        CloseDisarmsUnlessStray(Run(s, steps));
      }
    } else {
      var steps;
      if t :| Stray(s, t) {
        steps := StrayEscapes(s, t);
      } else {
        steps := CrowdEscapes(s);
      }
    }
  }

  /** Every Start that takes effect finds no timer armed and no call that may still arm one. */
  ghost predicate Orderly(s: State, steps: seq<Step>)
    requires CanRun(s, steps)
    decreases steps
  {
    steps != [] ==>
      && (steps[0].Start? && !s.running ==> s.armed == {} && forall i :: !May(s, i))
      && Orderly(Next(s, steps[0]), steps[1..])
  }

  ghost predicate AlwaysSafe(s: State, steps: seq<Step>)
    requires CanRun(s, steps)
    decreases steps
  {
    CloseStaysSafe(s) && (steps != [] ==> AlwaysSafe(Next(s, steps[0]), steps[1..]))
  }

  /** A Start that takes effect keeps a closable task closable exactly when it finds nothing outstanding. */
  lemma StartIsClosableIff(s: State, step: Step)
    requires Sound(s) && Closable(s) && Enabled(s, step) && step.Start? && !s.running
    ensures Closable(Next(s, step)) <==> s.armed == {} && forall i :: !May(s, i)
  {
    var s' := Next(s, step);
    assert forall i :: May(s', i) <==> May(s, i) || i == step.id;
    assert May(s', step.id);
    if Closable(s') {
      assert forall t :: t !in s.armed;
    }
  }

  lemma {:induction false} AlwaysSafeIffFrom(s: State, steps: seq<Step>)
    requires Sound(s) && Closable(s) && CanRun(s, steps)
    ensures AlwaysSafe(s, steps) <==> Orderly(s, steps)
    ensures Orderly(s, steps) ==> Closable(Run(s, steps))
    decreases steps
  {
    CloseStaysSafeIff(s);
    if steps != [] {
      var (step, s') := (steps[0], Next(s, steps[0]));
      StepKeepsSound(s, step);
      if step.Start? && !s.running {
        StartIsClosableIff(s, step);
      } else if !step.Start? {
        StepKeepsClosable(s, step);
      }
      CloseStaysSafeIff(s');
      if Closable(s') {
        AlwaysSafeIffFrom(s', steps[1..]);
      }
    }
  }

  /**
  Throughout a run it is certain that a Close before the next Start leaves no timer armed, if and
  only if every Start that takes effect finds no timer armed and no call that may still arm one.
  */
  lemma CloseAlwaysDisarmsIff(steps: seq<Step>)
    requires CanRun(INITIAL, steps)
    ensures AlwaysSafe(INITIAL, steps) <==> Orderly(INITIAL, steps)
  {
    AlwaysSafeIffFrom(INITIAL, steps);
  }

  /** After such a run, from a Close to the next Start no timer is armed. */
  lemma NoTimerUntilTheNextStart(steps: seq<Step>, more: seq<Step>)
    requires CanRun(INITIAL, steps) && Orderly(INITIAL, steps) && Enabled(Run(INITIAL, steps), Close)
    requires CanRun(Next(Run(INITIAL, steps), Close), more) && !HasStart(more)
    ensures Run(Next(Run(INITIAL, steps), Close), more).armed == {}
  {
    var s := Run(INITIAL, steps);
    AlwaysSafeIffFrom(INITIAL, steps);
    RunsAreSound(INITIAL, steps);
    CloseDisarmsUnlessStray(s);
    StepKeepsSound(s, Close);
    StoppedTaskWindsDown(Next(s, Close), more);
  }
}
