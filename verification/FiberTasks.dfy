/** What becomes of the tasks that are given to the worker pool, and how `Worker::exec` goes through its phases. */
module FiberTasks {
  import opened Basics
  import opened FiberModel
  import opened FiberInvariant
  import opened FiberSafety
  import opened FiberEffects

  // ----- no task is lost but one kind -----

  /** What can happen to a task. */
  datatype Fate = Arrives | Started | Dropped

  /** The fiber that worker w is about to enter with a task. */
  predicate HasFiber(s: State, w: WorkerId) {
    w < |s.workers| && s.workers[w].mode.IdleHand? && s.workers[w].mode.f < |s.fibers|
  }

  /**
    `exec` is called with a task; a fiber is entered with one; or it cannot be entered because it is still locked, while the task
    at hand was taken from the queue.
  */
  predicate Happens(s: State, st: Step, fate: Fate) {
    match fate
    case Arrives => st.op.OpExecStart?
    case Started => st.op.OpEnterIdle? && HasFiber(s, st.w) && !s.fibers[s.workers[st.w].mode.f].locked
    case Dropped =>
      && st.op.OpEnterIdle? && HasFiber(s, st.w) && s.fibers[s.workers[st.w].mode.f].locked && s.workers[st.w].mode.queued
  }

  /** To how many tasks it happened in the first k steps. */
  function Happened(ss: seq<State>, steps: seq<Step>, k: nat, fate: Fate): nat
    requires k <= |steps| && |ss| == |steps| + 1
  {
    if k == 0 then 0 else Happened(ss, steps, k - 1, fate) + (if Happens(ss[k - 1], steps[k - 1], fate) then 1 else 0)
  }

  /** The tasks that a worker holds: the one that `exec` was called with, and one that it has taken from the queue. */
  function Held(m: Mode): nat {
    match m
    case Outside => 0
    case ReadyPass(pass, _) => if pass.First? then 1 else 0
    case ReadyHand(pass, _, _) => if pass.First? then 1 else 0
    case ReadyPutBack(pass, _) => if pass.First? then 1 else 0
    case TakeTask(_) => 1
    case TakeIdle(_, queued) => if queued then 2 else 1
    case Create(_, queued) => if queued then 2 else 1
    case IdleHand(_, queued, _) => if queued then 2 else 1
    case NoFiber(_, queued) => if queued then 2 else 1
    case PutIdle(_) => 0
  }

  function HeldBy(workers: seq<Worker>): nat {
    if workers == [] then 0 else HeldBy(workers[..|workers| - 1]) + Held(workers[|workers| - 1].mode)
  }

  lemma {:induction false} HeldByUpdate(workers: seq<Worker>, w: nat, x: Worker)
    requires w < |workers|
    ensures HeldBy(workers[w := x]) + Held(workers[w].mode) == HeldBy(workers) + Held(x.mode)
  {
    var n := |workers| - 1;
    if w < n {
      HeldByUpdate(workers[..n], w, x);
      assert workers[w := x][..n] == workers[..n][w := x];
    } else {
      assert workers[w := x][..n] == workers[..n];
    }
  }

  function One(b: bool): nat {
    if b then 1 else 0
  }

  /** What a step of worker w does to the tasks, in the queue and in its hands. */
  predicate TasksMove(s: State, st: Step, s': State)
    requires st.w < |s.workers|
  {
    && |s'.workers| == |s.workers| && s'.workers == s.workers[st.w := s'.workers[st.w]]
    && s.tasks + Held(s.workers[st.w].mode) + One(Happens(s, st, Arrives))
       == s'.tasks + Held(s'.workers[st.w].mode) + One(Happens(s, st, Started)) + One(Happens(s, st, Dropped))
  }

  lemma RootTasks(s: State, st: Step)
    requires Next(s, st).Some? && IsRootOp(st.op)
    ensures st.w < |s.workers| && TasksMove(s, st, Next(s, st).value)
  {
  }

  lemma WaitAnyTasks(s: State, st: Step)
    requires Next(s, st).Some? && IsWaitAny(st.op)
    ensures st.w < |s.workers| && TasksMove(s, st, Next(s, st).value)
  {
  }

  lemma UserTasks(s: State, st: Step)
    requires Next(s, st).Some? && !IsRootOp(st.op) && !IsWaitAny(st.op)
    ensures st.w < |s.workers| && TasksMove(s, st, Next(s, st).value)
  {
  }

  lemma StepTasks(s: State, st: Step)
    requires Next(s, st).Some?
    ensures st.w < |s.workers| && TasksMove(s, st, Next(s, st).value)
  {
    if IsRootOp(st.op) {
      RootTasks(s, st);
    } else if IsWaitAny(st.op) {
      WaitAnyTasks(s, st);
    } else {
      UserTasks(s, st);
    }
  }

  /** A task arrives in a worker's hands, or leaves them for the queue or for a fiber, or is dropped: none is lost otherwise, or doubled. */
  predicate Balanced(s0: State, s: State, arrived: nat, run: nat, dropped: nat) {
    s0.tasks + arrived == s.tasks + HeldBy(s.workers) + run + dropped
  }

  lemma BalanceStep(s0: State, s: State, st: Step, s': State, arrived: nat, run: nat, dropped: nat)
    requires st.w < |s.workers| && TasksMove(s, st, s') && Balanced(s0, s, arrived, run, dropped)
    ensures Balanced(s0, s', arrived + One(Happens(s, st, Arrives)), run + One(Happens(s, st, Started)),
                     dropped + One(Happens(s, st, Dropped)))
  {
    HeldByUpdate(s.workers, st.w, s'.workers[st.w]);
  }

  lemma {:induction false} NothingHeld(workers: seq<Worker>)
    requires forall w :: 0 <= w < |workers| ==> workers[w].mode.Outside?
    ensures HeldBy(workers) == 0
  {
    if workers != [] { NothingHeld(workers[..|workers| - 1]); }
  }

  /**
    In every state of every run: the tasks that the pool began with and those that `exec` was called with are in the queue, in the
    hands of a worker, run, or dropped; and the only ones dropped were taken from the queue for a fiber that was still locked.
  */
  lemma {:induction false} TasksAreConserved(ss: seq<State>, steps: seq<Step>, k: nat)
    requires IsRun(ss, steps) && k < |ss|
    ensures Balanced(ss[0], ss[k], Happened(ss, steps, k, Arrives), Happened(ss, steps, k, Started), Happened(ss, steps, k, Dropped))
  {
    if k == 0 {
      NothingHeld(ss[0].workers);
    } else {
      TasksAreConserved(ss, steps, k - 1);
      assert Next(ss[k - 1], steps[k - 1]) == Some(ss[k - 1 + 1]);
      StepTasks(ss[k - 1], steps[k - 1]);
      BalanceStep(ss[0], ss[k - 1], steps[k - 1], ss[k], Happened(ss, steps, k - 1, Arrives), Happened(ss, steps, k - 1, Started),
                  Happened(ss, steps, k - 1, Dropped));
    }
  }

  // ----- the phases of exec -----

  /** Outside `exec`; activating ready fibers; with a task at hand; giving idle fibers back; activating ready fibers again. */
  datatype Phase = Away | FirstPass | AtTask | GivingBack | LastPasses

  function PhaseOf(m: Mode): Phase {
    match m
    case Outside => Away
    case ReadyPass(pass, _) => if pass.First? then FirstPass else LastPasses
    case ReadyHand(pass, _, _) => if pass.First? then FirstPass else LastPasses
    case ReadyPutBack(pass, _) => if pass.First? then FirstPass else LastPasses
    case PutIdle(_) => GivingBack
    case _ => AtTask
  }

  /** The phase of worker w. */
  function PhaseAt(s: State, w: WorkerId): Phase {
    if w < |s.workers| then PhaseOf(s.workers[w].mode) else Away
  }

  /**
    `exec` first activates what is ready, once; then it goes from task to task until its own has been given to a fiber or to the
    queue; then it gives back the idle fibers; then it activates what is ready, again and again. It leaves a pass only when it has
    seen nobody ready, and it returns only from a pass in which it could activate everybody.
  */
  lemma ExecPhases(s: State, st: Step)
    requires Next(s, st).Some?
    ensures var p, p' := PhaseAt(s, st.w), PhaseAt(Next(s, st).value, st.w);
            match st.op
            case OpExecStart => p == Away && p' == FirstPass
            case OpReadyEmpty =>
              && s.ready == []
              && p' == (if ReadyHands(s.workers[st.w].mode) != [] then p else if p == FirstPass then AtTask else Away)
            case OpPutBackReady => p' == (if p == FirstPass then AtTask else LastPasses)
            case OpEnterIdle =>
              p == AtTask && p' == (if Happens(s, st, Started) && Held(s.workers[st.w].mode) == 1 then GivingBack else AtTask)
            case OpQueueTask => p == AtTask && p' == GivingBack
            case OpPutBackIdle => p == GivingBack && p' == LastPasses
            case _ => p' == p
  {
    if IsRootOp(st.op) {
    } else if IsWaitAny(st.op) {
      AnyLeavesWorkers(s, st);
    } else {
      UserKeepsMode(s, st);
    }
  }

  lemma UserKeepsMode(s: State, st: Step)
    requires Next(s, st).Some? && !IsRootOp(st.op) && !IsWaitAny(st.op)
    ensures st.w < |s.workers| == |Next(s, st).value.workers| && Next(s, st).value.workers[st.w].mode == s.workers[st.w].mode
  {
  }

  /** A worker that asks for a task takes one if there is one. */
  lemma TaskIsTaken(s: State, w: WorkerId)
    requires Next(s, Step(w, OpPopTask)).Some?
    ensures var s' := Next(s, Step(w, OpPopTask)).value;
            && w < |s'.workers| && s'.tasks == (if s.tasks > 0 then s.tasks - 1 else 0)
            && Held(s'.workers[w].mode) == (if s.tasks > 0 then 2 else 1)
  {
  }

  /** A worker that seeks a fiber takes an idle one; when there is none it may create one, if it sees fewer than the limit. */
  lemma FiberIsSought(s: State, w: WorkerId, f: FiberId)
    requires AtRoot(s, w) && s.workers[w].mode.TakeIdle? && forall g :: g in s.idle ==> g < |s.fibers|
    ensures Next(s, Step(w, OpPopIdle(f))).Some? <==> f in s.idle
    ensures Next(s, Step(w, OpPopIdle(f))).Some? ==>
              var s' := Next(s, Step(w, OpPopIdle(f))).value;
              s'.idle == s.idle - {f} && s'.workers[w].mode.IdleHand? && s'.workers[w].mode.f == f
    ensures Next(s, Step(w, OpIdleEmpty)).Some? <==> s.idle == {}
    ensures Next(s, Step(w, OpIdleEmpty)).Some? ==>
              var m := Next(s, Step(w, OpIdleEmpty)).value.workers[w].mode;
              if s.total < s.maxFibers then m.Create? else m.NoFiber?
  {
  }

  /** A fiber that could be created is counted and is the worker's to enter; after a failure the worker has no fiber for the task. */
  lemma FiberIsCreated(s: State, w: WorkerId, ok: bool)
    requires AtRoot(s, w) && s.workers[w].mode.Create?
    ensures Next(s, Step(w, OpCreateFiber(ok))).Some?
    ensures var s' := Next(s, Step(w, OpCreateFiber(ok))).value;
            var m := s'.workers[w].mode;
            if ok then
              && |s'.fibers| == |s.fibers| + 1 && s'.fibers[..|s.fibers|] == s.fibers && s'.total == s.total + 1
              && !s'.fibers[|s.fibers|].locked && m.IdleHand? && m.f == |s.fibers|
            else s'.fibers == s.fibers && s'.total == s.total && m.NoFiber?
  {
  }

  /** How many tasks there were when worker w last asked for one, in the first k steps. */
  function LastAsked(ss: seq<State>, steps: seq<Step>, k: nat, w: WorkerId): Option<nat>
    requires k <= |steps| && |ss| == |steps| + 1
  {
    if k == 0 then None
    else if steps[k - 1] == Step(w, OpPopTask) then Some(ss[k - 1].tasks)
    else LastAsked(ss, steps, k - 1, w)
  }

  /** A worker that has asked for a task and not yet got rid of it. */
  predicate HasAsked(m: Mode) {
    m.TakeIdle? || m.Create? || m.IdleHand? || m.NoFiber?
  }

  lemma AskedStep(s: State, st: Step, w: WorkerId)
    requires Next(s, st).Some? && w < |s.workers|
    ensures w < |Next(s, st).value.workers|
    ensures var m, m' := s.workers[w].mode, Next(s, st).value.workers[w].mode;
            HasAsked(m') ==> if st == Step(w, OpPopTask) then m'.queued == (s.tasks > 0) else HasAsked(m) && m'.queued == m.queued
  {
    OtherWorkersStay(s, st, w);
    if w == st.w && !IsRootOp(st.op) {
      if IsWaitAny(st.op) {
        AnyLeavesWorkers(s, st);
      } else {
        UserKeepsMode(s, st);
      }
    }
  }

  lemma {:induction false} AskedIsKnown(ss: seq<State>, steps: seq<Step>, k: nat, w: WorkerId)
    requires IsRun(ss, steps) && k < |ss| && w < |ss[k].workers| && HasAsked(ss[k].workers[w].mode)
    ensures LastAsked(ss, steps, k, w).Some? && (ss[k].workers[w].mode.queued <==> LastAsked(ss, steps, k, w).value > 0)
  {
    if k > 0 {
      var s, st := ss[k - 1], steps[k - 1];
      assert Next(ss[k - 1], steps[k - 1]) == Some(ss[k - 1 + 1]);
      WorkersStay(s, st);
      AskedStep(s, st, w);
      if st != Step(w, OpPopTask) { AskedIsKnown(ss, steps, k - 1, w); }
    }
  }

  lemma WorkersStay(s: State, st: Step)
    requires Next(s, st).Some?
    ensures |Next(s, st).value.workers| == |s.workers|
  {
    StepTasks(s, st);
  }

  /**
    The task that `exec` was called with is given to a fiber only when the queue was seen empty, and to the queue only when no fiber
    is to be had.
  */
  lemma OwnTaskIsLast(ss: seq<State>, steps: seq<Step>, k: nat)
    requires IsRun(ss, steps) && k < |steps|
    requires PhaseAt(ss[k], steps[k].w) == AtTask && PhaseAt(ss[k + 1], steps[k].w) == GivingBack
    ensures || (Happens(ss[k], steps[k], Started) && LastAsked(ss, steps, k, steps[k].w) == Some(0))
            || (steps[k].op.OpQueueTask? && ss[k + 1].tasks > ss[k].tasks)
  {
    assert Next(ss[k], steps[k]) == Some(ss[k + 1]);
    ExecPhases(ss[k], steps[k]);
    if steps[k].op.OpEnterIdle? {
      AskedIsKnown(ss, steps, k, steps[k].w);
    }
  }
}
