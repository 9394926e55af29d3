/** What every run of the fiber runtime guarantees. */
module FiberSafety {
  import opened Basics
  import opened FiberModel
  import opened FiberInvariant
  import opened FiberRootSteps
  import opened FiberUserSteps
  import opened FiberSyncSteps
  import opened FiberAnySteps

  lemma InitialInv(s: State)
    requires Initial(s)
    ensures Inv(s)
  {
    assert Creating(s) == {};
    forall e | 0 <= e < |s.events| ensures EventOk(s, s.events[e], e) {
      assert s.events[e] == Event(s.events[e].auto, false, [], [], [], None, 0, 0, 0);
    }
    forall m | 0 <= m < |s.mutexes| ensures s.mutexes[m].owners == [] && OwnersOk(s.mutexes[m]) {
      assert s.mutexes[m] == Mutex([], [], 0);
    }
  }

  /** The steps of a root fiber. */
  predicate IsRootOp(op: Op) {
    op.OpExecStart? || op.OpPopReady? || op.OpReadyEmpty? || op.OpPutBackReady? || op.OpEnterReady? || op.OpPopTask?
    || op.OpPopIdle? || op.OpIdleEmpty? || op.OpCreateFiber? || op.OpEnterIdle? || op.OpQueueTask? || op.OpPutBackIdle?
    || op.OpLeaveFiber?
  }

  predicate IsWaitAny(op: Op) {
    op.OpAnyBegin? || op.OpAnyRegister? || op.OpAnyRollBack? || op.OpAnyCancel?
  }

  lemma RootStepKeeps(s: State, st: Step)
    requires Inv(s) && Next(s, st).Some? && IsRootOp(st.op)
    ensures Inv(Next(s, st).value)
  {
    match st.op
    case OpExecStart => ExecStartKeeps(s, st.w);
    case OpPopReady => PopReadyKeeps(s, st.w);
    case OpReadyEmpty => ReadyEmptyKeeps(s, st.w);
    case OpPutBackReady => PutBackReadyKeeps(s, st.w);
    case OpEnterReady => EnterReadyKeeps(s, st.w);
    case OpPopTask => PopTaskKeeps(s, st.w);
    case OpPopIdle(f) => PopIdleKeeps(s, st.w, f);
    case OpIdleEmpty => IdleEmptyKeeps(s, st.w);
    case OpCreateFiber(ok) => CreateFiberKeeps(s, st.w, ok);
    case OpEnterIdle => EnterIdleKeeps(s, st.w);
    case OpQueueTask => QueueTaskKeeps(s, st.w);
    case OpPutBackIdle => PutBackIdleKeeps(s, st.w);
    case OpLeaveFiber => LeaveFiberKeeps(s, st.w);
    case _ =>
  }

  lemma UserStepKeeps(s: State, st: Step)
    requires Inv(s) && Next(s, st).Some? && !IsRootOp(st.op) && !IsWaitAny(st.op)
    ensures Inv(Next(s, st).value)
  {
    match st.op
    case OpSwitchOut => SwitchOutKeeps(s, st.w);
    case OpFinish => FinishKeeps(s, st.w);
    case OpYield => YieldKeeps(s, st.w);
    case OpLock(m) => LockKeeps(s, st.w, m);
    case OpTryLock(m) => TryLockKeeps(s, st.w, m);
    case OpUnlock(m) => UnlockKeeps(s, st.w, m);
    case OpWait(e) => WaitEventKeeps(s, st.w, e);
    case OpReset(e) => ResetKeeps(s, st.w, e);
    case OpSetBegin(e, all) => SetBeginKeeps(s, st.w, e, all);
    case OpSetNotify => SetNotifyKeeps(s, st.w);
    case OpSetClear => SetClearKeeps(s, st.w);
    case OpSetWake => SetWakeKeeps(s, st.w);
    case OpSetEnd => SetEndKeeps(s, st.w);
    case _ =>
  }

  lemma WaitAnyStepKeeps(s: State, st: Step)
    requires Inv(s) && Next(s, st).Some? && IsWaitAny(st.op)
    ensures Inv(Next(s, st).value)
  {
    match st.op
    case OpAnyBegin(es) => AnyBeginKeeps(s, st.w, es);
    case OpAnyRegister => AnyRegisterKeeps(s, st.w);
    case OpAnyRollBack => AnyRollBackKeeps(s, st.w);
    case OpAnyCancel => AnyCancelKeeps(s, st.w);
    case _ =>
  }

  /** Whatever any worker does next, the invariant survives. */
  lemma StepKeeps(s: State, st: Step)
    requires Inv(s) && Next(s, st).Some?
    ensures Inv(Next(s, st).value)
  {
    if IsRootOp(st.op) {
      RootStepKeeps(s, st);
    } else if IsWaitAny(st.op) {
      WaitAnyStepKeeps(s, st);
    } else {
      UserStepKeeps(s, st);
    }
  }

  lemma {:induction false} RunInv(ss: seq<State>, steps: seq<Step>, k: nat)
    requires IsRun(ss, steps) && k < |ss|
    ensures Inv(ss[k])
  {
    if k == 0 {
      InitialInv(ss[0]);
    } else {
      RunInv(ss, steps, k - 1);
      assert Next(ss[k - 1], steps[k - 1]) == Some(ss[k - 1 + 1]);
      StepKeeps(ss[k - 1], steps[k - 1]);
    }
  }

  // ----- one place, one worker -----

  /**
    In every state of every run a parked fiber is held by exactly one structure (idle set, ready queue,
    one worker's hand, one event, one mutex tail, one unfired notifier), once; a fiber that is not
    parked is held by none.
  */
  lemma ParkedFiberHasOnePlace(ss: seq<State>, steps: seq<Step>, k: nat, f: FiberId)
    requires IsRun(ss, steps) && k < |ss| && f < |ss[k].fibers|
    ensures ss[k].fibers[f].pc.Parked? <==> exists p :: Holds(ss[k], p, f)
    ensures forall p, q :: Holds(ss[k], p, f) && Holds(ss[k], q, f) ==> p == q
    ensures DistinctInv(ss[k])
  {
    RunInv(ss, steps, k);
    var s := ss[k];
    assert Fits(s, s.fibers[f]);
    var p := s.fibers[f].place;
    assert p != Nowhere ==> (Holds(s, p, f) <==> Is(s, f, p));
    forall q | Holds(s, q, f) ensures q == p { assert Is(s, f, q); }
  }

  /** A fiber is current on at most one worker, locked exactly then, and only there does its code run. */
  lemma FiberRunsOnOneWorker(ss: seq<State>, steps: seq<Step>, k: nat, f: FiberId)
    requires IsRun(ss, steps) && k < |ss| && f < |ss[k].fibers|
    ensures forall v: nat, w: nat :: On(ss[k], v, f) && On(ss[k], w, f) ==> v == w
    ensures ss[k].fibers[f].locked <==> exists w: nat :: On(ss[k], w, f)
    ensures !ss[k].fibers[f].pc.Parked? ==> RunsSomewhere(ss[k], f)
  {
    RunInv(ss, steps, k);
    assert FiberCpu(ss[k], ss[k].fibers[f], f);
    var r := ss[k].fibers[f].runner;
    assert r.Some? ==> On(ss[k], r.value, f);
  }

  /** Fiber f is current on worker w, or w is about to lower its flag. */
  predicate On(s: State, w: WorkerId, f: FiberId) {
    w < |s.workers| && !s.workers[w].cpu.Root? && s.workers[w].cpu.f == f
  }

  ghost predicate RunsSomewhere(s: State, f: FiberId) {
    exists w :: 0 <= w < |s.workers| && s.workers[w].cpu == Runs(f)
  }

  // ----- wake-ups are kept -----

  /** f has been woken: it is queued ready or in the hand of a worker that popped it. */
  ghost predicate Woken(s: State, f: FiberId) {
    f in s.ready || exists w :: 0 <= w < |s.workers| && f in ReadyHands(s.workers[w].mode)
  }

  /** How one step may change a parked fiber: not at all, towards ready, or from a hand to running. */
  predicate Moves(a: Fiber, b: Fiber)
    requires a.pc.Parked?
  {
    || (b.pc == a.pc && (b.place == a.place
                         || (b.place.InReady? && !a.place.InIdle? && !a.place.InIdleHand?)
                         || (a.place.InReady? && b.place.InReadyHand?)
                         || (a.pc.why.Finished? && (b.place.InIdle? || b.place.InIdleHand?))))
    || (!b.pc.Parked? && b.runner.Some? && (a.place.InReadyHand? || a.place.InIdleHand?))
  }

  /** Where a parked fiber is, seen from the structures that the steps of worker w look at. */
  predicate KnownPlace(s: State, w: WorkerId, f: FiberId)
    requires f < |s.fibers|
  {
    && Fits(s, s.fibers[f])
    && (Holds(s, InReady, f) <==> Is(s, f, InReady))
    && (Holds(s, InIdle, f) <==> Is(s, f, InIdle))
    && (Holds(s, InReadyHand(w), f) <==> Is(s, f, InReadyHand(w)))
    && (Holds(s, InIdleHand(w), f) <==> Is(s, f, InIdleHand(w)))
  }

  lemma ReadyOpMoves(s: State, st: Step, f: FiberId)
    requires f < |s.fibers| && KnownPlace(s, st.w, f) && Next(s, st).Some? && s.fibers[f].pc.Parked?
    requires st.op.OpPopReady? || st.op.OpPutBackReady? || st.op.OpEnterReady?
    ensures f < |Next(s, st).value.fibers| && Moves(s.fibers[f], Next(s, st).value.fibers[f])
  {
  }

  lemma IdleOpMoves(s: State, st: Step, f: FiberId)
    requires f < |s.fibers| && KnownPlace(s, st.w, f) && Next(s, st).Some? && s.fibers[f].pc.Parked?
    requires st.op.OpPopIdle? || st.op.OpPutBackIdle? || st.op.OpEnterIdle? || st.op.OpCreateFiber? || st.op.OpLeaveFiber?
    ensures f < |Next(s, st).value.fibers| && Moves(s.fibers[f], Next(s, st).value.fibers[f])
  {
  }

  lemma RootStepMoves(s: State, st: Step, f: FiberId)
    requires PlaceInv(s) && FiberInv(s) && Next(s, st).Some? && f < |s.fibers| && s.fibers[f].pc.Parked?
    requires !Running(s, st.w)
    ensures f < |Next(s, st).value.fibers| && Moves(s.fibers[f], Next(s, st).value.fibers[f])
  {
    var w := st.w;
    PlaceIsKnown(s, w, f);
    if st.op.OpPopReady? || st.op.OpPutBackReady? || st.op.OpEnterReady? {
      ReadyOpMoves(s, st, f);
    } else if st.op.OpPopIdle? || st.op.OpPutBackIdle? || st.op.OpEnterIdle? || st.op.OpCreateFiber? || st.op.OpLeaveFiber? {
      IdleOpMoves(s, st, f);
    } else {
      assert Next(s, st).value.fibers == s.fibers;
    }
  }

  lemma PlaceIsKnown(s: State, w: WorkerId, f: FiberId)
    requires PlaceInv(s) && FiberInv(s) && f < |s.fibers|
    ensures KnownPlace(s, w, f)
  {
    assert Fits(s, s.fibers[f]);
    assert Holds(s, InReady, f) <==> Is(s, f, InReady);
    assert Holds(s, InIdle, f) <==> Is(s, f, InIdle);
    assert Holds(s, InReadyHand(w), f) <==> Is(s, f, InReadyHand(w));
    assert Holds(s, InIdleHand(w), f) <==> Is(s, f, InIdleHand(w));
  }

  /** The steps by which a running fiber can wake another one. */
  predicate IsWaking(op: Op) {
    op.OpSetNotify? || op.OpSetWake? || op.OpUnlock?
  }

  lemma AnyStepMoves(s: State, st: Step, f: FiberId)
    requires Next(s, st).Some? && f < |s.fibers| && s.fibers[f].pc.Parked?
    requires Running(s, st.w) && IsWaitAny(st.op)
    ensures Next(s, st).value.fibers == s.fibers[Current(s, st.w) := Next(s, st).value.fibers[Current(s, st.w)]]
    ensures f != Current(s, st.w)
  {
  }

  lemma QuietStepMoves(s: State, st: Step, f: FiberId)
    requires Next(s, st).Some? && f < |s.fibers| && s.fibers[f].pc.Parked?
    requires Running(s, st.w) && !IsWaking(st.op) && !IsWaitAny(st.op)
    ensures f < |Next(s, st).value.fibers| && Next(s, st).value.fibers[f] == s.fibers[f]
  {
  }

  lemma NotifyMoves(s: State, w: WorkerId, f: FiberId)
    requires Inv(s) && SetNotify(s, w).Some? && f < |s.fibers| && s.fibers[f].pc.Parked?
    ensures f < |SetNotify(s, w).value.fibers| && Moves(s.fibers[f], SetNotify(s, w).value.fibers[f])
  {
    HeadFacts(s, w);
  }

  lemma WakeMoves(s: State, w: WorkerId, f: FiberId)
    requires PlaceInv(s) && SetWake(s, w).Some? && f < |s.fibers| && s.fibers[f].pc.Parked?
    ensures f < |SetWake(s, w).value.fibers| && Moves(s.fibers[f], SetWake(s, w).value.fibers[f])
  {
    var e := SetTarget(s, w);
    assert Holds(s, InEvent(e), s.events[e].waiters[0]);
    assert Is(s, s.events[e].waiters[0], InEvent(e));
  }

  lemma UnlockMoves(s: State, w: WorkerId, m: MutexId, f: FiberId)
    requires PlaceInv(s) && Unlock(s, w, m).Some? && f < |s.fibers| && s.fibers[f].pc.Parked?
    ensures f < |Unlock(s, w, m).value.fibers| && Moves(s.fibers[f], Unlock(s, w, m).value.fibers[f])
  {
    if |s.mutexes[m].owners| > 1 {
      var g := s.mutexes[m].owners[1];
      assert g == s.mutexes[m].owners[1..][0];
      assert Holds(s, InMutex(m), g);
      assert Is(s, g, InMutex(m));
    }
  }

  lemma StepMoves(s: State, st: Step, f: FiberId)
    requires Inv(s) && Next(s, st).Some? && f < |s.fibers| && s.fibers[f].pc.Parked?
    ensures f < |Next(s, st).value.fibers| && Moves(s.fibers[f], Next(s, st).value.fibers[f])
  {
    if !Running(s, st.w) {
      RootStepMoves(s, st, f);
    } else if st.op.OpSetNotify? {
      NotifyMoves(s, st.w, f);
    } else if st.op.OpSetWake? {
      WakeMoves(s, st.w, f);
    } else if st.op.OpUnlock? {
      UnlockMoves(s, st.w, st.op.m, f);
    } else if IsWaitAny(st.op) {
      AnyStepMoves(s, st, f);
    } else {
      QuietStepMoves(s, st, f);
    }
  }

  /**
    A wake-up survives every step until it is used: a woken fiber stays woken, whether or not it has
    switched out yet, or else it now runs.
  */
  lemma WakeUpIsKept(ss: seq<State>, steps: seq<Step>, k: nat, f: FiberId)
    requires IsRun(ss, steps) && k < |steps|
    requires f < |ss[k].fibers| && ss[k].fibers[f].pc.Parked? && Woken(ss[k], f)
    ensures f < |ss[k + 1].fibers|
    ensures || (ss[k + 1].fibers[f].pc == ss[k].fibers[f].pc && Woken(ss[k + 1], f))
            || (!ss[k + 1].fibers[f].pc.Parked? && RunsSomewhere(ss[k + 1], f))
  {
    RunInv(ss, steps, k);
    RunInv(ss, steps, k + 1);
    var s, s', st := ss[k], ss[k + 1], steps[k];
    assert Next(ss[k], steps[k]) == Some(ss[k + 1]);
    StepMoves(s, st, f);
    WokenPlace(s, f);
    assert Fits(s, s.fibers[f]);
    if s'.fibers[f].pc.Parked? {
      WokenPlace(s', f);
    } else {
      assert FiberCpu(s', s'.fibers[f], f);
    }
  }

  lemma WokenPlace(s: State, f: FiberId)
    requires PlaceInv(s) && FiberInv(s) && f < |s.fibers|
    ensures Woken(s, f) <==> s.fibers[f].place.InReady? || s.fibers[f].place.InReadyHand?
  {
    assert Fits(s, s.fibers[f]);
    assert Holds(s, InReady, f) <==> Is(s, f, InReady);
    forall w | 0 <= w < |s.workers| && f in ReadyHands(s.workers[w].mode) ensures Is(s, f, InReadyHand(w)) {
      assert Holds(s, InReadyHand(w), f);
    }
    if s.fibers[f].place.InReadyHand? {
      var w := s.fibers[f].place.w;
      assert Is(s, f, InReadyHand(w));
      assert Holds(s, InReadyHand(w), f);
    }
  }

  // ----- mutexes -----

  /** Owners are fibers. */
  predicate OwnersExist(s: State) {
    forall m, f :: 0 <= m < |s.mutexes| && f in s.mutexes[m].owners ==> f < |s.fibers|
  }

  predicate IsLocking(op: Op) {
    op.OpLock? || op.OpTryLock? || op.OpUnlock?
  }

  lemma RootStepFrame(s: State, st: Step)
    requires Next(s, st).Some? && IsRootOp(st.op)
    ensures var s' := Next(s, st).value;
            s'.events == s.events && s'.mutexes == s.mutexes && s'.notifiers == s.notifiers && |s'.fibers| >= |s.fibers|
  {
  }

  lemma AnyStepFrame(s: State, st: Step)
    requires Next(s, st).Some? && IsWaitAny(st.op)
    ensures Next(s, st).value.mutexes == s.mutexes && Next(s, st).value.ready == s.ready
    ensures |Next(s, st).value.fibers| == |s.fibers| && |Next(s, st).value.events| == |s.events|
  {
  }

  lemma UserStepFrame(s: State, st: Step)
    requires Next(s, st).Some? && !IsRootOp(st.op) && !IsWaitAny(st.op) && !IsLocking(st.op)
    ensures Next(s, st).value.mutexes == s.mutexes
    ensures |Next(s, st).value.fibers| == |s.fibers| && |Next(s, st).value.events| == |s.events|
  {
  }

  lemma OthersLeaveMutexes(s: State, st: Step)
    requires Next(s, st).Some? && !IsLocking(st.op)
    ensures Next(s, st).value.mutexes == s.mutexes && |Next(s, st).value.fibers| >= |s.fibers|
  {
    if IsRootOp(st.op) {
      RootStepFrame(s, st);
    } else if IsWaitAny(st.op) {
      AnyStepFrame(s, st);
    } else {
      UserStepFrame(s, st);
    }
  }

  lemma OwnersStep(s: State, st: Step)
    requires OwnersExist(s) && Next(s, st).Some?
    ensures OwnersExist(Next(s, st).value)
  {
    if IsLocking(st.op) {
      LockingOwners(s, st);
    } else {
      OthersLeaveMutexes(s, st);
      OwnersFrame(s, Next(s, st).value);
    }
  }

  lemma OwnersFrame(s: State, s': State)
    requires OwnersExist(s) && s'.mutexes == s.mutexes && |s'.fibers| >= |s.fibers|
    ensures OwnersExist(s')
  {
  }

  /** A locking step changes one row of owners, and brings in nobody but the fiber that runs. */
  lemma LockingMoves(s: State, st: Step)
    requires Next(s, st).Some? && IsLocking(st.op)
    ensures Running(s, st.w) && st.op.m < |s.mutexes| && |Next(s, st).value.fibers| == |s.fibers|
    ensures var mx' := Next(s, st).value.mutexes[st.op.m]; Next(s, st).value.mutexes == s.mutexes[st.op.m := mx']
    ensures var owners, owners' := s.mutexes[st.op.m].owners, Next(s, st).value.mutexes[st.op.m].owners;
            owners' == owners || owners' == owners + [Current(s, st.w)] || (owners != [] && owners' == owners[1..])
  {
  }

  lemma LockingOwners(s: State, st: Step)
    requires OwnersExist(s) && Next(s, st).Some? && IsLocking(st.op)
    ensures OwnersExist(Next(s, st).value)
  {
    LockingMoves(s, st);
    var owners, owners' := s.mutexes[st.op.m].owners, Next(s, st).value.mutexes[st.op.m].owners;
    assert owners != [] ==> owners == [owners[0]] + owners[1..];
    forall f | f in owners' ensures f < |s.fibers| {
      assert f in owners || f == Current(s, st.w);
    }
  }

  lemma {:induction false} OwnersRun(ss: seq<State>, steps: seq<Step>, k: nat)
    requires IsRun(ss, steps) && k < |ss|
    ensures OwnersExist(ss[k])
  {
    if k == 0 {
      assert forall m :: 0 <= m < |ss[0].mutexes| ==> ss[0].mutexes[m] == Mutex([], [], 0);
    } else {
      OwnersRun(ss, steps, k - 1);
      assert Next(ss[k - 1], steps[k - 1]) == Some(ss[k - 1 + 1]);
      OwnersStep(ss[k - 1], steps[k - 1]);
    }
  }

  /** Only the front of `_owners` is ever past `lock()`, and owners leave in order of arrival. */
  lemma OnlyFrontIsPastLock(ss: seq<State>, steps: seq<Step>, k: nat, m: MutexId, f: FiberId)
    requires IsRun(ss, steps) && k < |ss| && m < |ss[k].mutexes| && f in ss[k].mutexes[m].owners
    ensures f < |ss[k].fibers|
    ensures ss[k].fibers[f].pc != Parked(OnMutex(m)) ==> ss[k].mutexes[m].owners[0] == f
    ensures ss[k].fibers[f].pc == Parked(OnMutex(m)) && ss[k].mutexes[m].owners[0] == f ==> Woken(ss[k], f)
    ensures ss[k].mutexes[m].released <= |ss[k].mutexes[m].arrivals|
    ensures ss[k].mutexes[m].owners == ss[k].mutexes[m].arrivals[ss[k].mutexes[m].released..]
  {
    RunInv(ss, steps, k);
    OwnersRun(ss, steps, k);
    var s := ss[k];
    var owners := s.mutexes[m].owners;
    assert OwnersOk(s.mutexes[m]);
    TailMembers(owners);
    assert Holds(s, InMutex(m), f) <==> f in owners[1..];
    assert Holds(s, InMutex(m), f) <==> Is(s, f, InMutex(m));
    assert Fits(s, s.fibers[f]);
    WokenPlace(s, f);
  }

  /** `unlock` appends nothing to the line and takes its front off; the next in line becomes ready. */
  lemma UnlockGrantsNext(s: State, w: WorkerId, m: MutexId)
    requires Inv(s) && Unlock(s, w, m).Some?
    ensures var s' := Unlock(s, w, m).value;
            && s'.mutexes[m].owners == s.mutexes[m].owners[1..]
            && s'.mutexes[m].arrivals == s.mutexes[m].arrivals
            && (s'.mutexes[m].owners != [] ==> Woken(s', s'.mutexes[m].owners[0]) && !Woken(s, s'.mutexes[m].owners[0]))
  {
    var s' := Unlock(s, w, m).value;
    var owners := s.mutexes[m].owners;
    if |owners| > 1 {
      var g := owners[1];
      assert g == owners[1..][0];
      assert Holds(s, InMutex(m), g);
      assert Is(s, g, InMutex(m));
      WokenPlace(s, g);
      assert g in s'.ready;
    }
  }

  // ----- events -----

  /** A signal given to an auto-reset event is taken once, cleared by reset, or still stored. */
  lemma SignalsAreConserved(ss: seq<State>, steps: seq<Step>, k: nat, e: EventId)
    requires IsRun(ss, steps) && k < |ss| && e < |ss[k].events| && ss[k].events[e].auto && ss[k].events[e].setter.None?
    ensures ss[k].events[e].given == ss[k].events[e].taken + ss[k].events[e].cleared + (if ss[k].events[e].isSet then 1 else 0)
    ensures ss[k].events[e].isSet ==> ss[k].events[e].waiters == [] && ss[k].events[e].anyWaiters == []
  {
    RunInv(ss, steps, k);
    assert EventOk(ss[k], ss[k].events[e], e);
  }

  /** The first notifier of event e, until then unfired, is answered with e, and its initiator, whom nobody had woken, becomes ready. */
  predicate NotifierAnswered(s: State, s': State, op: Op, e: EventId)
    requires e < |s.events| && e < |s'.events|
  {
    && op.OpSetNotify? && s.events[e].anyWaiters != []
    && var n := s.events[e].anyWaiters[0];
    && n < |s.notifiers| && n < |s'.notifiers|
    && s.notifiers[n].key.None? && s'.notifiers == s.notifiers[n := s'.notifiers[n]] && s'.notifiers[n].key == Some(e)
    && PcIs(s, s.notifiers[n].initiator, Parked(OnAny(n))) && Is(s, s.notifiers[n].initiator, InNotifier(n))
    && s'.events[e].anyWaiters == s.events[e].anyWaiters[1..] && s'.events[e].waiters == s.events[e].waiters
    && s'.ready == s.ready + [s.notifiers[n].initiator]
  }

  /** No notifier is left, and the first fiber that waits on e, whom nobody had woken, becomes ready. */
  predicate WaiterWoken(s: State, s': State, op: Op, e: EventId)
    requires e < |s.events| && e < |s'.events|
  {
    && op.OpSetWake? && s.events[e].anyWaiters == s'.events[e].anyWaiters == [] && s.events[e].waiters != []
    && var f := s.events[e].waiters[0];
    && PcIs(s, f, Parked(OnEvent(e))) && Is(s, f, InEvent(e))
    && s'.events[e].waiters == s.events[e].waiters[1..] && s'.notifiers == s.notifiers
    && s'.ready == s.ready + [f]
  }

  /** A notifier that had fired is passed over. */
  predicate DeadPassed(s: State, s': State, op: Op, e: EventId)
    requires e < |s.events| && e < |s'.events|
  {
    && op.OpSetNotify? && s.events[e].anyWaiters != []
    && var n := s.events[e].anyWaiters[0];
    && n < |s.notifiers| && s.notifiers[n].key.Some? && s'.notifiers == s.notifiers && s'.ready == s.ready
    && s'.events[e] == s.events[e].(anyWaiters := s.events[e].anyWaiters[1..], visited := s.events[e].visited + [n])
  }

  /** The entries that were passed are erased, and nobody is woken. */
  predicate PassedErased(s: State, s': State, op: Op, e: EventId)
    requires e < |s.events| && e < |s'.events|
  {
    && op.OpSetClear? && s'.notifiers == s.notifiers && s'.ready == s.ready
    && s'.events[e] == s.events[e].(visited := [], setter := s'.events[e].setter)
  }

  lemma SetFalseNotifies(s: State, w: WorkerId)
    requires Inv(s) && InSet(s, w) && SetIsOver(s.events[SetTarget(s, w)]) && SetNotify(s, w).Some?
    ensures var e, s' := SetTarget(s, w), SetNotify(s, w).value;
            var ev, ev' := s.events[e], s'.events[e];
            && ev'.setter.Some? && !ev'.isSet
            && if ev'.setter.value.woke then ev'.taken == ev.taken + 1 && NotifierAnswered(s, s', OpSetNotify, e)
               else DeadPassed(s, s', OpSetNotify, e)
  {
    SetterFacts(s, w);
    HeadFacts(s, w);
  }

  lemma SetFalseWakes(s: State, w: WorkerId)
    requires Inv(s) && InSet(s, w) && SetIsOver(s.events[SetTarget(s, w)]) && SetWake(s, w).Some?
    ensures var e, s' := SetTarget(s, w), SetWake(s, w).value;
            && s'.events[e].setter.None? && !s'.events[e].isSet
            && s'.events[e].taken == s.events[e].taken + 1 && WaiterWoken(s, s', OpSetWake, e)
  {
    var e := SetTarget(s, w);
    SetterFacts(s, w);
    var g := s.events[e].waiters[0];
    assert Holds(s, InEvent(e), g);
    assert Is(s, g, InEvent(e));
    assert Fits(s, s.fibers[g]);
  }

  lemma SetFalseEnds(s: State, w: WorkerId, op: Op)
    requires Inv(s) && InSet(s, w) && SetIsOver(s.events[SetTarget(s, w)]) && (op.OpSetClear? || op.OpSetEnd?)
    requires Next(s, Step(w, op)).Some?
    ensures var e, s' := SetTarget(s, w), Next(s, Step(w, op)).value;
            var ev, ev' := s.events[e], s'.events[e];
            if op.OpSetClear? then PassedErased(s, s', op, e) && ev'.setter == (if ev.setter.value.woke then None else ev.setter)
            else && ev'.setter.None? && ev'.isSet && !ev.setter.value.woke && s'.ready == s.ready && ev.waiters == []
                 && ev.anyWaiters == [] && ev'.taken == ev.taken
  {
    SetterFacts(s, w);
  }

  /** The steps that a set(false) on an unset auto-reset event can take, and what each does. */
  lemma SetFalseHandsOutOneSignal(s: State, w: WorkerId, op: Op)
    requires Inv(s) && InSet(s, w) && SetIsOver(s.events[SetTarget(s, w)])
    requires op.OpSetNotify? || op.OpSetClear? || op.OpSetWake? || op.OpSetEnd?
    requires Next(s, Step(w, op)).Some?
    ensures var e, s' := SetTarget(s, w), Next(s, Step(w, op)).value;
            var ev, ev' := s.events[e], s'.events[e];
            if ev.setter.value.woke then
              // after the first success only the erasing is left, and with it the set is over
              PassedErased(s, s', op, e) && ev'.setter.None?
            else if ev'.setter.Some? && !ev'.setter.value.woke then
              // nobody is woken yet
              DeadPassed(s, s', op, e) || (PassedErased(s, s', op, e) && ev'.setter == ev.setter)
            else if ev'.isSet then
              // nobody waits: the signal is stored
              s'.ready == s.ready && ev.waiters == [] && ev.anyWaiters == [] && ev'.taken == ev.taken
            else
              // one waiter of this event is woken and takes it
              ev'.taken == ev.taken + 1 && (NotifierAnswered(s, s', op, e) || WaiterWoken(s, s', op, e))
  {
    SetterFacts(s, w);
    match op
    case OpSetNotify => SetFalseNotifies(s, w);
    case OpSetWake => SetFalseWakes(s, w);
    case _ => SetFalseEnds(s, w, op);
  }

  /**
    When `waitAny` returns to its caller it has one answer, taken from one of its events, and its notifier stands in no event
    whose mutex is free; a `set` in progress may still list it among the entries that it has passed, and never comes back to it.
  */
  lemma WaitAnyReturnsClean(s: State, w: WorkerId, op: Op)
    requires Inv(s) && Running(s, w) && (op.OpAnyRollBack? || op.OpAnyCancel?) && Next(s, Step(w, op)).Some?
    requires Next(s, Step(w, op)).value.fibers[Current(s, w)].pc.User?
    ensures s.fibers[Current(s, w)].pc.RollingBack? || s.fibers[Current(s, w)].pc.Cancelling?
    ensures var s' := Next(s, Step(w, op)).value; var n := s.fibers[Current(s, w)].pc.n;
            && n < |s'.notifiers| && s'.notifiers[n].key.Some? && s'.notifiers[n].key.value in s'.notifiers[n].events
            && s'.notifiers[n].answers == 1 && !s'.notifiers[n].locked
            && (forall e :: 0 <= e < |s'.events| ==> n !in s'.events[e].anyWaiters)
            && (forall e :: 0 <= e < |s'.events| && s'.events[e].setter.None? ==> n !in s'.events[e].visited)
  {
    var f := Current(s, w);
    AnswerKept(s, w, op);
    NotifiersKept(s, Step(w, op));
    var s' := Next(s, Step(w, op)).value;
    NobodyLists(s', f, s.fibers[f].pc.n);
    forall e | 0 <= e < |s'.events| && s'.events[e].setter.None? ensures s'.events[e].visited == [] {
      assert EventOk(s', s'.events[e], e);
    }
  }

  lemma NotifiersKept(s: State, st: Step)
    requires Inv(s) && Next(s, st).Some?
    ensures NotifierInv(Next(s, st).value) && EventInv(Next(s, st).value)
  {
    StepKeeps(s, st);
  }

  /** Cancelling leaves the notifier and its answer as they are. */
  lemma AnswerKept(s: State, w: WorkerId, op: Op)
    requires FiberInv(s) && Running(s, w) && (op.OpAnyRollBack? || op.OpAnyCancel?) && Next(s, Step(w, op)).Some?
    ensures var f := Current(s, w); var s' := Next(s, Step(w, op)).value;
            && (s.fibers[f].pc.RollingBack? || s.fibers[f].pc.Cancelling?)
            && s'.notifiers == s.notifiers && |s'.fibers| == |s.fibers| && s.fibers[f].pc.n < |s.notifiers|
            && s.notifiers[s.fibers[f].pc.n].initiator == f && s.notifiers[s.fibers[f].pc.n].key.Some?
  {
    assert PcOk(s, s.fibers[Current(s, w)], Current(s, w));
  }

  lemma NobodyLists(s: State, f: FiberId, n: NotifierId)
    requires NotifierInv(s) && f < |s.fibers| && s.fibers[f].pc.User?
    requires n < |s.notifiers| && s.notifiers[n].initiator == f
    ensures forall e :: 0 <= e < |s.events| ==> n !in s.events[e].anyWaiters
    ensures s.notifiers[n].key.Some? ==> s.notifiers[n].key.value in s.notifiers[n].events && s.notifiers[n].answers == 1
    ensures !s.notifiers[n].locked
  {
    assert NotifierOk(s, s.notifiers[n], n);
    forall e: nat | e < |s.events| ensures n !in s.events[e].anyWaiters {
      assert !MayList(s, n, e);
      assert !Lists(s, e, n);
    }
  }

  /** A `waitAny` that waits unanswered stands in all of its events, so a set on any of them reaches it. */
  lemma WaitAnyHearsEveryEvent(ss: seq<State>, steps: seq<Step>, k: nat, f: FiberId, n: NotifierId)
    requires IsRun(ss, steps) && k < |ss| && f < |ss[k].fibers| && ss[k].fibers[f].pc == Parked(OnAny(n)) && !Woken(ss[k], f)
    ensures n < |ss[k].notifiers| && ss[k].notifiers[n].key.None? && !ss[k].notifiers[n].locked
    ensures forall e :: e in ss[k].notifiers[n].events ==> e < |ss[k].events| && n in ss[k].events[e].anyWaiters
  {
    RunInv(ss, steps, k);
    var s := ss[k];
    assert Fits(s, s.fibers[f]) && PcOk(s, s.fibers[f], f);
    WokenPlace(s, f);
    assert NotifierOk(s, s.notifiers[n], n);
    forall e | e in s.notifiers[n].events ensures e < |s.events| && n in s.events[e].anyWaiters {
      var j :| 0 <= j < |s.notifiers[n].events| && s.notifiers[n].events[j] == e;
      assert MustList(s, n, j);
      assert Lists(s, s.notifiers[n].events[j], n);
    }
  }

  // ----- how many fibers -----

  /** The limit is checked and the fiber created in separate critical sections: W - 1 more may appear. */
  lemma FiberLimit(ss: seq<State>, steps: seq<Step>, k: nat)
    requires IsRun(ss, steps) && k < |ss|
    ensures ss[k].total == |ss[k].fibers| <= ss[k].maxFibers + |ss[k].workers| - 1
  {
    RunInv(ss, steps, k);
  }

  // ----- the source's own assertions -----

  /** What the assert statements on the way of a step demand of the state before it. */
  predicate SourceAsserts(s: State, st: Step) {
    match st.op
    case OpFinish => InUser(s, st.w) ==> Current(s, st.w) !in s.ready
    case OpYield => InUser(s, st.w) ==> Current(s, st.w) !in s.idle
    case OpLeaveFiber =>
      st.w < |s.workers| && s.workers[st.w].cpu.Leaves? && s.workers[st.w].cpu.f < |s.fibers| && s.fibers[s.workers[st.w].cpu.f].locked
    case OpEnterIdle =>
      st.w < |s.workers| && s.workers[st.w].mode.IdleHand? && PcIs(s, s.workers[st.w].mode.f, Parked(Finished))
    case OpWait(e) => e < |s.events| && |s.events[e].waiters| < 200
    case OpReset(e) => e < |s.events| && (s.events[e].isSet ==> s.events[e].waiters == [])
    case OpSetWake =>
      && InSet(s, st.w) && s.events[SetTarget(s, st.w)].waiters != []
      && s.events[SetTarget(s, st.w)].waiters[0] !in s.idle + {Current(s, st.w)}
    case OpSetNotify =>
      && InSet(s, st.w) && s.events[SetTarget(s, st.w)].anyWaiters != []
      && s.events[SetTarget(s, st.w)].anyWaiters[0] < |s.notifiers|
      && (s.notifiers[s.events[SetTarget(s, st.w)].anyWaiters[0]].key.None? ==>
            s.notifiers[s.events[SetTarget(s, st.w)].anyWaiters[0]].initiator !in s.idle)
    case OpUnlock(m) => m < |s.mutexes| && (|s.mutexes[m].owners| > 1 ==> s.mutexes[m].owners[1] !in s.idle)
    case OpAnyCancel =>
      && Running(s, st.w) && s.fibers[Current(s, st.w)].pc.Cancelling? && s.fibers[Current(s, st.w)].pc.n < |s.notifiers|
      && s.notifiers[s.fibers[Current(s, st.w)].pc.n].key.Some?
    case _ => true
  }

  lemma IdleMembers(s: State, f: FiberId)
    requires PlaceInv(s)
    ensures f in s.idle <==> Is(s, f, InIdle)
  {
    assert Holds(s, InIdle, f) <==> Is(s, f, InIdle);
  }

  lemma WakingAssertionsHold(s: State, st: Step)
    requires Inv(s) && Next(s, st).Some? && IsWaking(st.op)
    ensures SourceAsserts(s, st)
  {
    var w := st.w;
    match st.op
    case OpSetWake =>
      var g := s.events[SetTarget(s, w)].waiters[0];
      assert Holds(s, InEvent(SetTarget(s, w)), g);
      assert Is(s, g, InEvent(SetTarget(s, w))) && Fits(s, s.fibers[g]);
      IdleMembers(s, g);
    case OpSetNotify =>
      HeadFacts(s, w);
      IdleMembers(s, s.notifiers[s.events[SetTarget(s, w)].anyWaiters[0]].initiator);
    case OpUnlock(m) =>
      if |s.mutexes[m].owners| > 1 {
        var g := s.mutexes[m].owners[1];
        assert g == s.mutexes[m].owners[1..][0];
        assert Holds(s, InMutex(m), g);
        assert Is(s, g, InMutex(m));
        IdleMembers(s, g);
      }
    case _ =>
  }

  /** In every reachable state the assertions of the source hold for whatever step comes next, except in a wait on a crowded event. */
  lemma AssertionsHold(s: State, st: Step)
    requires Inv(s) && Next(s, st).Some?
    ensures SourceAsserts(s, st) <==> !(st.op.OpWait? && |s.events[st.op.e].waiters| >= 200)
  {
    var w := st.w;
    if IsWaking(st.op) {
      WakingAssertionsHold(s, st);
    } else if st.op.OpFinish? || st.op.OpYield? {
      RunningIsNowhere(s, w);
      assert !Holds(s, InReady, Current(s, w)) && !Holds(s, InIdle, Current(s, w));
    } else if st.op.OpLeaveFiber? {
      assert FiberCpu(s, s.fibers[s.workers[w].cpu.f], s.workers[w].cpu.f);
    } else if st.op.OpEnterIdle? {
      var f := s.workers[w].mode.f;
      assert IdleHands(s.workers[w].mode)[|s.workers[w].mode.failed|] == f;
      assert Holds(s, InIdleHand(w), f);
      assert Is(s, f, InIdleHand(w)) && Fits(s, s.fibers[f]);
    } else if st.op.OpReset? {
      assert EventOk(s, s.events[st.op.e], st.op.e);
    } else if st.op.OpAnyCancel? {
      assert PcOk(s, s.fibers[Current(s, w)], Current(s, w));
    }
  }
}
