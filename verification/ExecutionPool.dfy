/**
 The execution pool as a state machine: callers push executables, worker threads run them and
 schedule an end callback on the main loop, and the main loop fires it. Each step is one atomic
 action of one thread; the steps of a worker can be interleaved with all the others.
 */
module ExecutionPool {
  /** An executable object, by identity. */
  type Executable = nat

  datatype State = State(
    refs: multiset<Executable>,       // the reference count of each object
    owners: multiset<Executable>,     // references held by code outside the pool
    queue: seq<Executable>,           // pushed and not yet taken by a worker
    working: multiset<Executable>,    // being executed by a worker
    signalled: multiset<Executable>,  // end callback scheduled, worker's reference not yet dropped
    pending: multiset<Executable>,    // end callbacks waiting in the main loop
    pushed: multiset<Executable>,     // successful pushes so far
    fired: multiset<Executable>,      // execution-end signals so far
    maxThreads: nat)

  datatype Step =
    | OwnerRef(e: Executable)
    | OwnerUnref(e: Executable)
    | Push(e: Executable)
    | PushInvalid
    | SetMaxThreads(n: nat)
    | Take
    | ScheduleEnd(e: Executable)
    | DropWorkerRef(e: Executable)
    | FireEnd(e: Executable)

  predicate Internal(step: Step) {
    step.Take? || step.ScheduleEnd? || step.DropWorkerRef? || step.FireEnd?
  }

  predicate Init(s: State) {
    s.refs == s.owners && s.queue == [] && s.working == multiset{} && s.signalled == multiset{} &&
    s.pending == multiset{} && s.pushed == multiset{} && s.fired == multiset{}
  }

  predicate Enabled(s: State, step: Step) {
    match step
    case OwnerRef(e) => e in s.owners
    case OwnerUnref(e) => e in s.owners
    case Push(e) => e in s.owners
    case PushInvalid => true
    case SetMaxThreads(n) => true
    case Take => s.queue != [] && |s.working| + |s.signalled| < s.maxThreads
    case ScheduleEnd(e) => e in s.working
    case DropWorkerRef(e) => e in s.signalled
    case FireEnd(e) => e in s.pending
  }

  /** The object whose reference count a step changes, or that a worker starts to use. */
  predicate Touches(s: State, step: Step, e: Executable)
    requires Enabled(s, step)
  {
    match step
    case Take => e == s.queue[0]
    case PushInvalid => false
    case SetMaxThreads(_) => false
    case _ => e == step.e
  }

  function Next(s: State, step: Step): State
    requires Enabled(s, step)
  {
    match step
    case OwnerRef(e) => s.(refs := s.refs + multiset{e}, owners := s.owners + multiset{e})
    case OwnerUnref(e) => s.(refs := s.refs - multiset{e}, owners := s.owners - multiset{e})
    case Push(e) => s.(refs := s.refs + multiset{e}, queue := s.queue + [e], pushed := s.pushed + multiset{e})
    case PushInvalid => s
    case SetMaxThreads(n) => s.(maxThreads := n)
    case Take => s.(queue := s.queue[1..], working := s.working + multiset{s.queue[0]})
    case ScheduleEnd(e) =>
      s.(refs := s.refs + multiset{e}, pending := s.pending + multiset{e},
         working := s.working - multiset{e}, signalled := s.signalled + multiset{e})
    case DropWorkerRef(e) => s.(refs := s.refs - multiset{e}, signalled := s.signalled - multiset{e})
    case FireEnd(e) =>
      s.(refs := s.refs - multiset{e}, pending := s.pending - multiset{e}, fired := s.fired + multiset{e})
  }

  // ---- Runs

  /** The state after each prefix of the steps is s[i]; every step was possible when it was taken. */
  predicate IsRun(states: seq<State>, steps: seq<Step>) {
    |states| == |steps| + 1 && Init(states[0]) &&
    forall i :: 0 <= i < |steps| ==> Enabled(states[i], steps[i]) && states[i + 1] == Next(states[i], steps[i])
  }

  /** Every reference is accounted for, and every push is somewhere between the queue and its end signal. */
  predicate Balanced(s: State, e: Executable) {
    var queued := multiset(s.queue)[e];
    s.refs[e] == s.owners[e] + queued + s.working[e] + s.signalled[e] + s.pending[e] &&
    s.pushed[e] == queued + s.working[e] + s.pending[e] + s.fired[e]
  }

  predicate Quiescent(s: State) {
    s.queue == [] && s.working == multiset{} && s.signalled == multiset{} && s.pending == multiset{}
  }

  lemma StepKeepsBalance(s: State, step: Step, e: Executable)
    requires Balanced(s, e) && Enabled(s, step)
    ensures Balanced(Next(s, step), e)
  {
    if Internal(step) {
      InternalKeepsBalance(s, step, e);
    } else if step.Push? {
      QueuedCount(s.queue, step.e, e);
    }
  }

  lemma InternalKeepsBalance(s: State, step: Step, e: Executable)
    requires Balanced(s, e) && Enabled(s, step) && Internal(step)
    ensures Balanced(Next(s, step), e)
  {
    if step.Take? {
      TakenCount(s.queue, e);
    }
  }

  lemma TakenCount(queue: seq<Executable>, e: Executable)
    requires queue != []
    ensures multiset(queue)[e] == multiset(queue[1..])[e] + (if queue[0] == e then 1 else 0)
  {
    assert queue == [queue[0]] + queue[1..];
  }

  lemma QueuedCount(queue: seq<Executable>, f: Executable, e: Executable)
    ensures multiset(queue + [f])[e] == multiset(queue)[e] + (if f == e then 1 else 0)
  {
  }

  lemma {:induction false} RunsStayBalanced(states: seq<State>, steps: seq<Step>, i: nat, e: Executable)
    requires IsRun(states, steps) && i < |states|
    ensures Balanced(states[i], e)
  {
    if i > 0 {
      RunsStayBalanced(states, steps, i - 1, e);
      StepKeepsBalance(states[i - 1], steps[i - 1], e);
    }
  }

  /** In any interleaving no thread touches an object that has lost its last reference. */
  lemma NoStepTouchesFreed(states: seq<State>, steps: seq<Step>, i: nat, e: Executable)
    requires IsRun(states, steps) && i < |steps| && Touches(states[i], steps[i], e)
    ensures states[i].refs[e] > 0
  {
    RunsStayBalanced(states, steps, i, e);
  }

  /** Once the pool is idle, only the owners' references are left and each push has ended exactly once. */
  lemma QuiescentRun(states: seq<State>, steps: seq<Step>, i: nat)
    requires IsRun(states, steps) && i < |states| && Quiescent(states[i])
    ensures states[i].refs == states[i].owners && states[i].fired == states[i].pushed
  {
    forall e
      ensures states[i].refs[e] == states[i].owners[e] && states[i].fired[e] == states[i].pushed[e]
    {
      RunsStayBalanced(states, steps, i, e);
    }
  }

  /** No end signal without its push, at any time. */
  lemma NeverTooManyEnds(states: seq<State>, steps: seq<Step>, i: nat, e: Executable)
    requires IsRun(states, steps) && i < |states|
    ensures states[i].fired[e] <= states[i].pushed[e]
  {
    RunsStayBalanced(states, steps, i, e);
  }

  // ---- Every push costs four steps of the pool's threads

  function Work(s: State): nat {
    4 * |s.queue| + 3 * |s.working| + |s.signalled| + |s.pending|
  }

  function InternalSteps(steps: seq<Step>): nat {
    if steps == [] then 0
    else InternalSteps(steps[..|steps| - 1]) + (if Internal(steps[|steps| - 1]) then 1 else 0)
  }

  lemma InternalStepWork(s: State, step: Step)
    requires Enabled(s, step)
    ensures Internal(step) ==> Work(Next(s, step)) == Work(s) - 1 && |Next(s, step).pushed| == |s.pushed|
    ensures step.Push? ==> Work(Next(s, step)) == Work(s) + 4 && |Next(s, step).pushed| == |s.pushed| + 1
    ensures !Internal(step) && !step.Push? ==> Work(Next(s, step)) == Work(s) && Next(s, step).pushed == s.pushed
  {
  }

  /** Steps done and work left always add up to four for each push, so a run that stops pushing comes to rest. */
  lemma {:induction false} WorkIsConserved(states: seq<State>, steps: seq<Step>, i: nat)
    requires IsRun(states, steps) && i < |states|
    ensures InternalSteps(steps[..i]) + Work(states[i]) == 4 * |states[i].pushed|
  {
    if i > 0 {
      hide Work, Next, Enabled, Internal, Init, InternalSteps;
      WorkIsConserved(states, steps, i - 1);
      InternalStepWork(states[i - 1], steps[i - 1]);
      InternalStepsNext(steps, i - 1);
      PushIsNotInternal(steps[i - 1]);
    }
  }

  lemma PushIsNotInternal(step: Step)
    ensures step.Push? ==> !Internal(step)
  {
  }

  lemma InternalStepsNext(steps: seq<Step>, i: nat)
    requires i < |steps|
    ensures InternalSteps(steps[..i + 1]) == InternalSteps(steps[..i]) + (if Internal(steps[i]) then 1 else 0)
  {
    assert steps[..i + 1][..i] == steps[..i];
  }

  /** Short of rest some thread of the pool can always go on, as long as one worker is allowed. */
  lemma NeverStuck(s: State)
    requires s.maxThreads > 0
    ensures Quiescent(s) <==> forall step :: Internal(step) ==> !Enabled(s, step)
    ensures Quiescent(s) <==> Work(s) == 0
  {
    if !Quiescent(s) {
      if s.working != multiset{} {
        var e :| e in s.working;
        assert Enabled(s, ScheduleEnd(e)) && |s.working| > 0;
      } else if s.signalled != multiset{} {
        var e :| e in s.signalled;
        assert Enabled(s, DropWorkerRef(e)) && |s.signalled| > 0;
      } else if s.pending != multiset{} {
        var e :| e in s.pending;
        assert Enabled(s, FireEnd(e)) && |s.pending| > 0;
      } else {
        assert Enabled(s, Take);
      }
    }
  }

  function Workers(s: State): nat {
    |s.working| + |s.signalled|
  }

  lemma StepWorkers(s: State, step: Step)
    requires Enabled(s, step)
    ensures Workers(Next(s, step)) <= if step.Take? then Workers(s) + 1 else Workers(s)
    ensures step.Take? ==> Workers(s) < s.maxThreads
  {
    if step.ScheduleEnd? {
      assert s.working == (s.working - multiset{step.e}) + multiset{step.e};
    }
  }

  /** No more threads are ever at work than the pool was allowed up to then. */
  lemma {:induction false} NeverTooManyThreads(states: seq<State>, steps: seq<Step>, i: nat, bound: nat)
    requires IsRun(states, steps) && i <= |steps|
    requires forall j :: 0 <= j <= i ==> states[j].maxThreads <= bound
    ensures Workers(states[i]) <= bound
  {
    hide Enabled, Next;
    if i > 0 {
      NeverTooManyThreads(states, steps, i - 1, bound);
      StepWorkers(states[i - 1], steps[i - 1]);
    }
  }
}
