/**
  Who waits for whose lock. `Event::set` keeps the event's mutex while it takes the mutexes of notifiers; `Event::waitAny` keeps the
  notifier's mutex while it takes those of events.
*/
module FiberLocks {
  import opened Basics
  import opened FiberModel
  import opened FiberInvariant
  import opened FiberSafety
  import opened FiberHistory
  import opened FiberEffects
  import opened FiberBounds

  // ----- what a fiber waits for -----

  /** The fiber that is inside `set` at event e. */
  function EventHolder(s: State, e: EventId): Option<FiberId> {
    if e < |s.events| && s.events[e].setter.Some? then Some(s.events[e].setter.value.owner) else None
  }

  /** The fiber that registers notifier n. */
  function NotifierHolder(s: State, n: NotifierId): Option<FiberId> {
    if n < |s.notifiers| && s.notifiers[n].locked then Some(s.notifiers[n].initiator) else None
  }

  /** The event whose mutex a fiber inside `waitAny` takes next. */
  function NextEvent(s: State, f: FiberId): Option<EventId>
    requires f < |s.fibers|
  {
    match s.fibers[f].pc
    case Registering(n, i) => if n < |s.notifiers| && i < |s.notifiers[n].events| then Some(s.notifiers[n].events[i]) else None
    case RollingBack(n, i, j) =>
      if n < |s.notifiers| && j < i && j < |s.notifiers[n].events| then Some(s.notifiers[n].events[j]) else None
    case Cancelling(n, j) =>
      if n < |s.notifiers| && j < |s.notifiers[n].events| && s.notifiers[n].key != Some(s.notifiers[n].events[j]) then
        Some(s.notifiers[n].events[j])
      else None
    case _ => None
  }

  /** The notifier whose mutex a fiber inside `set` takes next. */
  function NextNotifier(s: State, f: FiberId): Option<NotifierId>
    requires f < |s.fibers|
  {
    match s.fibers[f].pc
    case Setting(e) =>
      if e < |s.events| && s.events[e].setter.Some? && !s.events[e].setter.value.done && s.events[e].anyWaiters != [] then
        Some(s.events[e].anyWaiters[0])
      else None
    case _ => None
  }

  /** The fiber that holds the lock that fiber f takes next. */
  function Blocker(s: State, f: FiberId): Option<FiberId> {
    if f >= |s.fibers| then None
    else if NextEvent(s, f).Some? then EventHolder(s, NextEvent(s, f).value)
    else if NextNotifier(s, f).Some? then NotifierHolder(s, NextNotifier(s, f).value)
    else None
  }

  ghost predicate CanGoOn(s: State, w: WorkerId) {
    exists op :: Next(s, Step(w, op)).Some?
  }

  lemma HeldFiber(s: State, p: Place, f: FiberId)
    requires PlaceInv(s) && FiberInv(s) && p != Nowhere && Holds(s, p, f)
    ensures f < |s.fibers| && s.fibers[f].place == p && Fits(s, s.fibers[f])
  {
    assert Is(s, f, p);
  }

  lemma ReadyGoesOn(s: State, w: WorkerId)
    requires Inv(s) && AtRoot(s, w) && PhaseIsReady(s.workers[w].mode)
    ensures CanGoOn(s, w)
  {
    var m := s.workers[w].mode;
    if m.ReadyHand? {
      HeldFiber(s, InReadyHand(w), m.f);
      assert Next(s, Step(w, OpEnterReady)).Some?;
    } else if m.ReadyPutBack? {
      assert Next(s, Step(w, OpPutBackReady)).Some?;
    } else if s.ready == [] {
      assert Next(s, Step(w, OpReadyEmpty)).Some?;
    } else {
      HeldFiber(s, InReady, s.ready[0]);
      assert Next(s, Step(w, OpPopReady)).Some?;
    }
  }

  predicate PhaseIsReady(m: Mode) {
    m.ReadyPass? || m.ReadyHand? || m.ReadyPutBack?
  }

  lemma TaskGoesOn(s: State, w: WorkerId)
    requires Inv(s) && AtRoot(s, w) && !PhaseIsReady(s.workers[w].mode)
    ensures CanGoOn(s, w)
  {
    match s.workers[w].mode
    case Outside => assert Next(s, Step(w, OpExecStart)).Some?;
    case TakeTask(_) => assert Next(s, Step(w, OpPopTask)).Some?;
    case TakeIdle(_, _) =>
      if f :| f in s.idle {
        HeldFiber(s, InIdle, f);
        assert Next(s, Step(w, OpPopIdle(f))).Some?;
      } else {
        assert s.idle == {};
        assert Next(s, Step(w, OpIdleEmpty)).Some?;
      }
    case Create(_, _) => assert Next(s, Step(w, OpCreateFiber(false))).Some?;
    case IdleHand(_, _, f) =>
      HeldFiber(s, InIdleHand(w), f);
      assert Next(s, Step(w, OpEnterIdle)).Some?;
    case NoFiber(_, _) => assert Next(s, Step(w, OpQueueTask)).Some?;
    case PutIdle(_) => assert Next(s, Step(w, OpPutBackIdle)).Some?;
    case _ =>
  }

  /** What a `set` has before it exists. */
  predicate QueuesExist(s: State, ev: Event) {
    && (ev.anyWaiters != [] ==> ev.anyWaiters[0] < |s.notifiers| && s.notifiers[ev.anyWaiters[0]].initiator < |s.fibers|)
    && (ev.waiters != [] ==> ev.waiters[0] < |s.fibers|)
  }

  lemma SetFacts(s: State, w: WorkerId)
    requires Inv(s) && Running(s, w) && s.fibers[Current(s, w)].pc.Setting?
    ensures InSet(s, w) && QueuesExist(s, s.events[SetTarget(s, w)])
  {
    var f := Current(s, w);
    assert PcOk(s, s.fibers[f], f);
    var e := SetTarget(s, w);
    var ev := s.events[e];
    if ev.anyWaiters != [] {
      assert Lists(s, e, ev.anyWaiters[0]);
      assert MayList(s, ev.anyWaiters[0], e);
    }
    if ev.waiters != [] { HeldFiber(s, InEvent(e), ev.waiters[0]); }
  }

  lemma SetGoesOn(s: State, w: WorkerId)
    requires InSet(s, w) && QueuesExist(s, s.events[SetTarget(s, w)]) && Blocker(s, Current(s, w)).None?
    ensures CanGoOn(s, w)
  {
    var ev := s.events[SetTarget(s, w)];
    if ev.setter.value.done || (ev.anyWaiters == [] && ev.visited != []) {
      assert Next(s, Step(w, OpSetClear)).Some?;
    } else if ev.anyWaiters != [] {
      assert Next(s, Step(w, OpSetNotify)).Some?;
    } else if ev.waiters != [] {
      assert Next(s, Step(w, OpSetWake)).Some?;
    } else {
      assert Next(s, Step(w, OpSetEnd)).Some?;
    }
  }

  predicate InAny(pc: Pc) {
    pc.Registering? || pc.RollingBack? || pc.Cancelling?
  }

  predicate AllExist(s: State, es: seq<EventId>) {
    forall k :: 0 <= k < |es| ==> es[k] < |s.events|
  }

  lemma AnyFacts(s: State, w: WorkerId)
    requires Inv(s) && Running(s, w) && InAny(s.fibers[Current(s, w)].pc)
    ensures var n := s.fibers[Current(s, w)].pc.n; n < |s.notifiers| && AllExist(s, s.notifiers[n].events)
  {
    var f := Current(s, w);
    assert PcOk(s, s.fibers[f], f);
    var nt := s.notifiers[s.fibers[f].pc.n];
    assert NotifierOk(s, nt, s.fibers[f].pc.n);
    assert forall k :: 0 <= k < |nt.events| ==> nt.events[k] in nt.events;
  }

  lemma AnyGoesOn(s: State, w: WorkerId)
    requires Running(s, w) && InAny(s.fibers[Current(s, w)].pc) && Blocker(s, Current(s, w)).None?
    requires var n := s.fibers[Current(s, w)].pc.n; n < |s.notifiers| && AllExist(s, s.notifiers[n].events)
    ensures CanGoOn(s, w)
  {
    var pc := s.fibers[Current(s, w)].pc;
    if pc.Registering? {
      assert Next(s, Step(w, OpAnyRegister)).Some?;
    } else if pc.RollingBack? {
      assert Next(s, Step(w, OpAnyRollBack)).Some?;
    } else {
      assert Next(s, Step(w, OpAnyCancel)).Some?;
    }
  }

  /** A worker whose fiber waits for a lock can do nothing else. */
  lemma BlockedIsStuck(s: State, w: WorkerId)
    requires FiberInv(s) && Running(s, w) && Blocker(s, Current(s, w)).Some?
    ensures !CanGoOn(s, w)
  {
    var f := Current(s, w);
    assert PcOk(s, s.fibers[f], f);
    forall op ensures Next(s, Step(w, op)).None? {
      if IsWaitAny(op) {
        StuckInAny(s, w, op);
      } else {
        StuckInSet(s, w, op);
      }
    }
  }

  lemma StuckInAny(s: State, w: WorkerId, op: Op)
    requires Running(s, w) && Blocker(s, Current(s, w)).Some? && IsWaitAny(op)
    ensures Next(s, Step(w, op)).None?
  {
  }

  lemma StuckInSet(s: State, w: WorkerId, op: Op)
    requires Running(s, w) && Blocker(s, Current(s, w)).Some? && !IsWaitAny(op)
    ensures Next(s, Step(w, op)).None?
  {
  }

  /** In a reachable state a worker can do something exactly when its fiber, if it runs one, does not wait for a lock that is held. */
  lemma GoesOnIff(s: State, w: WorkerId)
    requires Inv(s) && w < |s.workers|
    ensures CanGoOn(s, w) <==> !(s.workers[w].cpu.Runs? && Blocker(s, s.workers[w].cpu.f).Some?)
  {
    match s.workers[w].cpu
    case Root =>
      if PhaseIsReady(s.workers[w].mode) { ReadyGoesOn(s, w); } else { TaskGoesOn(s, w); }
    case Leaves(_) => assert Next(s, Step(w, OpLeaveFiber)).Some?;
    case Runs(f) =>
      assert PcOk(s, s.fibers[f], f);
      if Blocker(s, f).Some? {
        BlockedIsStuck(s, w);
      } else {
        match s.fibers[f].pc
        case User => assert Next(s, Step(w, OpYield)).Some?;
        case Parked(_) => assert Next(s, Step(w, OpSwitchOut)).Some?;
        case Setting(_) =>
          SetFacts(s, w);
          SetGoesOn(s, w);
        case _ =>
          AnyFacts(s, w);
          AnyGoesOn(s, w);
      }
  }

  /** What a fiber in user code may do: everything, but for what the callers owe, and for events that somebody else is setting. */
  predicate UserMay(s: State, w: WorkerId, op: Op)
    requires InUser(s, w)
  {
    match op
    case OpFinish => true
    case OpYield => true
    case OpLock(m) => m < |s.mutexes| && Current(s, w) !in s.mutexes[m].owners
    case OpTryLock(m) => m < |s.mutexes|
    case OpUnlock(m) => m < |s.mutexes| && s.mutexes[m].owners != [] && s.mutexes[m].owners[0] == Current(s, w)
    case OpWait(e) => e < |s.events| && EventHolder(s, e).None?
    case OpReset(e) => e < |s.events| && EventHolder(s, e).None?
    case OpSetBegin(e, all) =>
      e < |s.events| && EventHolder(s, e).None? && (s.events[e].auto && all ==> s.events[e].anyWaiters == [])
    case OpAnyBegin(es) => NoDup(es) && AllExist(s, es)
    case _ => false
  }

  lemma UserMayDo(s: State, w: WorkerId, op: Op)
    requires Inv(s) && InUser(s, w)
    ensures Next(s, Step(w, op)).Some? <==> UserMay(s, w, op)
  {
    if op.OpUnlock? {
      OwnerMayUnlock(s, w, op.m);
    } else if op.OpAnyBegin? {
      AllExistIs(s, op.es);
    } else if IsRootOp(op) {
      RootOpsAreNot(s, w, op);
    } else {
      OthersMayDo(s, w, op);
    }
  }

  lemma OwnerMayUnlock(s: State, w: WorkerId, m: MutexId)
    requires PlaceInv(s) && FiberInv(s) && InUser(s, w)
    ensures Unlock(s, w, m).Some? <==> UserMay(s, w, OpUnlock(m))
  {
    if m < |s.mutexes| && |s.mutexes[m].owners| > 1 {
      var owners := s.mutexes[m].owners;
      assert owners[1] == owners[1..][0];
      HeldFiber(s, InMutex(m), owners[1]);
    }
  }

  lemma RootOpsAreNot(s: State, w: WorkerId, op: Op)
    requires InUser(s, w) && IsRootOp(op)
    ensures Next(s, Step(w, op)).None?
  {
  }

  lemma OthersMayDo(s: State, w: WorkerId, op: Op)
    requires InUser(s, w) && !IsRootOp(op) && !op.OpUnlock? && !op.OpAnyBegin?
    ensures Next(s, Step(w, op)).Some? <==> UserMay(s, w, op)
  {
  }

  lemma AllExistIs(s: State, es: seq<EventId>)
    ensures AllExist(s, es) <==> forall e :: e in es ==> e < |s.events|
  {
    assert forall k :: 0 <= k < |es| ==> es[k] in es;
  }

  // ----- who holds a lock -----

  /** The worker that runs fiber f. */
  predicate RunsOn(s: State, f: FiberId, w: WorkerId) {
    f < |s.fibers| && w < |s.workers| && s.workers[w].cpu == Runs(f)
  }

  /** g is inside `set` at event e. */
  predicate Sets(s: State, g: FiberId, e: EventId) {
    PcIs(s, g, Setting(e)) && EventHolder(s, e) == Some(g)
  }

  /** g registers notifier n, has been at event e with it, and comes to event e2 next. */
  predicate Registers(s: State, g: FiberId, n: NotifierId, e: EventId, e2: EventId) {
    && g < |s.fibers| && s.fibers[g].pc.Registering? && s.fibers[g].pc.n == n && NextEvent(s, g) == Some(e2)
    && n < |s.notifiers| && s.notifiers[n].initiator == g && s.notifiers[n].locked && e in s.notifiers[n].events[..s.fibers[g].pc.i]
  }

  /** Whoever waits for an event waits for a fiber inside `set` there. */
  lemma HolderSets(s: State, f: FiberId)
    requires Inv(s) && f < |s.fibers| && Blocker(s, f).Some? && !s.fibers[f].pc.Setting?
    ensures NextEvent(s, f).Some? && Sets(s, Blocker(s, f).value, NextEvent(s, f).value)
  {
    assert EventOk(s, s.events[NextEvent(s, f).value], NextEvent(s, f).value);
  }

  /** Whoever is stuck inside `set` waits for a fiber that registers a notifier and has been here with it. */
  lemma HolderRegisters(s: State, f: FiberId)
    requires Inv(s) && f < |s.fibers| && Blocker(s, f).Some? && s.fibers[f].pc.Setting?
    ensures var e, g := s.fibers[f].pc.e, Blocker(s, f).value;
            && Sets(s, f, e) && NextNotifier(s, f).Some?
            && var n := NextNotifier(s, f).value;
            && Lists(s, e, n) && g < |s.fibers| && s.fibers[g].pc.Registering? && s.fibers[g].pc.n == n
            && n < |s.notifiers| && s.notifiers[n].initiator == g && s.notifiers[n].locked
            && e in s.notifiers[n].events[..s.fibers[g].pc.i]
  {
    var e, n := s.fibers[f].pc.e, NextNotifier(s, f).value;
    assert PcOk(s, s.fibers[f], f);
    assert Lists(s, e, n);
    assert MayList(s, n, e) && NotifierOk(s, s.notifiers[n], n);
    var g := s.notifiers[n].initiator;
    assert PcOk(s, s.fibers[g], g);
  }

  /** A fiber that waits for a lock, or holds one that somebody waits for, runs. */
  lemma BothRun(s: State, f: FiberId)
    requires Inv(s) && f < |s.fibers| && Blocker(s, f).Some?
    ensures var g := Blocker(s, f).value; g < |s.fibers| && !s.fibers[g].pc.Parked? && g != f
    ensures !s.fibers[f].pc.Parked?
  {
    if s.fibers[f].pc.Setting? { HolderRegisters(s, f); } else { HolderSets(s, f); }
  }

  lemma RunnerIs(s: State, f: FiberId) returns (w: WorkerId)
    requires CpuInv(s) && f < |s.fibers| && !s.fibers[f].pc.Parked?
    ensures RunsOn(s, f, w) && s.fibers[f].runner == Some(w)
  {
    assert FiberCpu(s, s.fibers[f], f);
    w := s.fibers[f].runner.value;
  }

  // ----- a knot is for ever -----

  /** Fiber f waits for a lock that a fiber of D holds. */
  predicate WaitsFor(s: State, f: FiberId, D: set<FiberId>) {
    f < |s.fibers| && Blocker(s, f).Some? && Blocker(s, f).value in D
  }

  /** Fibers that all wait for locks that fibers among them hold. */
  ghost predicate Knot(s: State, D: set<FiberId>) {
    D != {} && forall f {:trigger WaitsFor(s, f, D)} :: f in D ==> WaitsFor(s, f, D)
  }

  lemma RootPcStays(s: State, st: Step, f: FiberId)
    requires PlaceInv(s) && FiberInv(s) && Next(s, st).Some? && IsRootOp(st.op)
    requires f < |s.fibers| && !s.fibers[f].pc.Parked? && s.fibers[f].runner != Some(st.w)
    requires st.op.OpEnterReady? ==> s.fibers[s.workers[st.w].mode.f].pc.Parked?
    requires st.op.OpEnterIdle? ==> s.fibers[s.workers[st.w].mode.f].pc.Parked?
    ensures f < |Next(s, st).value.fibers| && Next(s, st).value.fibers[f].pc == s.fibers[f].pc
  {
  }

  /** A fiber that runs is where it was, unless its own worker makes the step. */
  lemma PcStays(s: State, st: Step, f: FiberId)
    requires Inv(s) && Next(s, st).Some? && f < |s.fibers| && !s.fibers[f].pc.Parked? && s.fibers[f].runner != Some(st.w)
    ensures f < |Next(s, st).value.fibers| && Next(s, st).value.fibers[f].pc == s.fibers[f].pc
  {
    if IsRootOp(st.op) {
      if st.op.OpEnterReady? { HeldFiber(s, InReadyHand(st.w), s.workers[st.w].mode.f); }
      if st.op.OpEnterIdle? { HeldFiber(s, InIdleHand(st.w), s.workers[st.w].mode.f); }
      RootPcStays(s, st, f);
    } else if IsWaitAny(st.op) {
      AnyPcStays(s, st, f);
    } else {
      UserPcStays(s, st, f);
    }
  }

  lemma AnyPcStays(s: State, st: Step, f: FiberId)
    requires CpuInv(s) && Next(s, st).Some? && IsWaitAny(st.op) && f < |s.fibers| && s.fibers[f].runner != Some(st.w)
    ensures f < |Next(s, st).value.fibers| && Next(s, st).value.fibers[f].pc == s.fibers[f].pc
  {
    assert Running(s, st.w) && s.fibers[Current(s, st.w)].runner == Some(st.w);
  }

  lemma UserPcStays(s: State, st: Step, f: FiberId)
    requires CpuInv(s) && Next(s, st).Some? && !IsWaitAny(st.op) && !IsRootOp(st.op)
    requires f < |s.fibers| && s.fibers[f].runner != Some(st.w)
    ensures f < |Next(s, st).value.fibers| && Next(s, st).value.fibers[f].pc == s.fibers[f].pc
  {
    assert Running(s, st.w) && s.fibers[Current(s, st.w)].runner == Some(st.w);
  }

  lemma SetterRuns(s: State, w: WorkerId)
    requires CpuInv(s) && FiberInv(s) && InSet(s, w)
    ensures EventHolder(s, SetTarget(s, w)) == Some(Current(s, w)) && s.fibers[Current(s, w)].runner == Some(w)
  {
    assert PcOk(s, s.fibers[Current(s, w)], Current(s, w));
  }

  /** An event inside whose `set` a fiber is changes only by steps of that fiber's worker. */
  lemma HeldEventStays(s: State, st: Step, e: EventId, g: FiberId)
    requires Inv(s) && Next(s, st).Some? && Sets(s, g, e) && s.fibers[g].runner != Some(st.w)
    ensures e < |Next(s, st).value.events| && Next(s, st).value.events[e] == s.events[e]
  {
    EventsStay(s, st);
    if Subject(s, st) != Some(e) {
      OtherEventsStay(s, st, e);
    } else if IsWaitAny(st.op) {
      AnyLeavesTaken(s, st, e);
    } else if InSet(s, st.w) {
      SetterRuns(s, st.w);
    }
  }

  /** A notifier that a fiber registers changes only by steps of that fiber's worker. */
  lemma HeldNotifierStays(s: State, st: Step, n: NotifierId)
    requires Inv(s) && Next(s, st).Some? && n < |s.notifiers| && s.notifiers[n].locked
    requires s.notifiers[n].initiator < |s.fibers| && s.fibers[s.notifiers[n].initiator].runner != Some(st.w)
    ensures n < |Next(s, st).value.notifiers| && Next(s, st).value.notifiers[n] == s.notifiers[n]
  {
    if IsRootOp(st.op) {
      RootStepFrame(s, st);
    } else if IsWaitAny(st.op) {
      if st.op.OpAnyRegister? { OwnNotifier(s, st.w); }
      OtherNotifierStays(s, st, n);
    } else if st.op.OpSetNotify? {
      LockedIsSpared(s, st.w, n);
    } else {
      UserLeavesNotifiers(s, st);
    }
  }

  lemma OwnNotifier(s: State, w: WorkerId)
    requires CpuInv(s) && FiberInv(s) && AnyRegister(s, w).Some?
    ensures var f := Current(s, w);
            && s.fibers[f].runner == Some(w) && s.fibers[f].pc.n < |s.notifiers| && s.notifiers[s.fibers[f].pc.n].initiator == f
  {
    assert PcOk(s, s.fibers[Current(s, w)], Current(s, w));
  }

  lemma LockedIsSpared(s: State, w: WorkerId, n: NotifierId)
    requires SetNotify(s, w).Some? && n < |s.notifiers| && s.notifiers[n].locked
    ensures n < |SetNotify(s, w).value.notifiers| && SetNotify(s, w).value.notifiers[n] == s.notifiers[n]
  {
  }

  lemma OtherNotifierStays(s: State, st: Step, n: NotifierId)
    requires Next(s, st).Some? && IsWaitAny(st.op) && n < |s.notifiers|
    requires st.op.OpAnyRegister? ==> s.fibers[Current(s, st.w)].pc.n != n
    ensures n < |Next(s, st).value.notifiers| && Next(s, st).value.notifiers[n] == s.notifiers[n]
  {
  }

  /** While neither moves, f keeps waiting for g. */
  lemma BlockerStays(s: State, st: Step, f: FiberId, g: FiberId)
    requires Inv(s) && Next(s, st).Some? && f < |s.fibers| && g < |s.fibers| && Blocker(s, f) == Some(g)
    requires s.fibers[f].runner != Some(st.w) && s.fibers[g].runner != Some(st.w)
    ensures f < |Next(s, st).value.fibers| && Blocker(Next(s, st).value, f) == Some(g)
  {
    BothRun(s, f);
    PcStays(s, st, f);
    assert PcOk(s, s.fibers[f], f);
    if s.fibers[f].pc.Setting? {
      HolderRegisters(s, f);
      HeldEventStays(s, st, s.fibers[f].pc.e, f);
      HeldNotifierStays(s, st, NextNotifier(s, f).value);
    } else {
      HolderSets(s, f);
      HeldEventStays(s, st, NextEvent(s, f).value, g);
      NotifiersStay(s, st, s.fibers[f].pc.n);
    }
  }

  /** No fiber of a knot can move. */
  lemma KnotIsStuck(s: State, D: set<FiberId>, f: FiberId)
    requires Inv(s) && Knot(s, D) && f in D
    ensures f < |s.fibers| && s.fibers[f].runner.Some?
    ensures var w := s.fibers[f].runner.value; RunsOn(s, f, w) && !CanGoOn(s, w)
  {
    assert WaitsFor(s, f, D);
    BothRun(s, f);
    var w := RunnerIs(s, f);
    BlockedIsStuck(s, w);
  }

  lemma KnotStays(s: State, st: Step, D: set<FiberId>)
    requires Inv(s) && Next(s, st).Some? && Knot(s, D)
    ensures Knot(Next(s, st).value, D)
  {
    forall f | f in D ensures f < |s.fibers| && s.fibers[f].runner != Some(st.w) {
      KnotIsStuck(s, D, f);
      assert Next(s, Step(st.w, st.op)).Some?;
    }
    forall f {:trigger WaitsFor(Next(s, st).value, f, D)} | f in D ensures WaitsFor(Next(s, st).value, f, D) {
      assert WaitsFor(s, f, D);
      BlockerStays(s, st, f, Blocker(s, f).value);
    }
  }

  lemma KnotNext(ss: seq<State>, steps: seq<Step>, k: nat, D: set<FiberId>)
    requires IsRun(ss, steps) && k < |steps| && Knot(ss[k], D)
    ensures Knot(ss[k + 1], D)
  {
    RunInv(ss, steps, k);
    assert Next(ss[k], steps[k]) == Some(ss[k + 1]);
    KnotStays(ss[k], steps[k], D);
  }

  /** Once fibers wait for each other in a knot, they do so for the rest of every run. */
  lemma KnotIsForEver(ss: seq<State>, steps: seq<Step>, i: nat, j: nat, D: set<FiberId>)
    requires IsRun(ss, steps) && i <= j < |ss| && Knot(ss[i], D)
    ensures Knot(ss[j], D)
  {
    ghost var holds := seq(|ss|, k requires 0 <= k < |ss| => Knot(ss[k], D));
    forall k | i <= k < j && holds[k] ensures holds[k + 1] {
      KnotNext(ss, steps, k, D);
    }
    Lasts(holds, i, j);
  }

  // ----- what a knot looks like -----

  /** f is inside `set` at event e and waits for g, which registers notifier n, has been at e with it, and comes to e2 next. */
  predicate Link(s: State, f: FiberId, e: EventId, n: NotifierId, g: FiberId, e2: EventId) {
    && f < |s.fibers| && Sets(s, f, e) && Blocker(s, f) == Some(g) && Lists(s, e, n)
    && g < |s.fibers| && s.fibers[g].pc.Registering? && s.fibers[g].pc.n == n && n < |s.notifiers| && s.notifiers[n].initiator == g
    && NextEvent(s, g) == Some(e2) && e in s.notifiers[n].events[..s.fibers[g].pc.i]
  }

  /** A fiber of a knot that is inside `set` waits for one of the knot that registers, and that one for another inside `set`. */
  lemma NextLink(s: State, D: set<FiberId>, f: FiberId) returns (n: NotifierId, g: FiberId, e2: EventId, h: FiberId)
    requires Inv(s) && Knot(s, D) && f in D && f < |s.fibers| && s.fibers[f].pc.Setting?
    ensures Link(s, f, s.fibers[f].pc.e, n, g, e2) && g in D && h in D && Blocker(s, g) == Some(h) && Sets(s, h, e2)
  {
    assert WaitsFor(s, f, D);
    HolderRegisters(s, f);
    g, n := Blocker(s, f).value, NextNotifier(s, f).value;
    assert WaitsFor(s, g, D);
    HolderSets(s, g);
    h, e2 := Blocker(s, g).value, NextEvent(s, g).value;
  }

  lemma SomebodySets(s: State, D: set<FiberId>) returns (f: FiberId)
    requires Inv(s) && Knot(s, D)
    ensures f in D && f < |s.fibers| && s.fibers[f].pc.Setting?
  {
    f :| f in D;
    assert WaitsFor(s, f, D);
    if !s.fibers[f].pc.Setting? {
      HolderSets(s, f);
      f := Blocker(s, f).value;
    }
  }

  /** In the list of a `waitAny` the event that it comes to next is none of those that it has been at. */
  lemma NextIsNew(s: State, f: FiberId, e: EventId, n: NotifierId, g: FiberId, e2: EventId)
    requires Inv(s) && Link(s, f, e, n, g, e2)
    ensures e2 != e && !Lists(s, e2, n)
  {
    var nt, i := s.notifiers[n], s.fibers[g].pc.i;
    assert NotifierOk(s, nt, n);
    assert forall k :: 0 <= k < i ==> nt.events[..i][k] == nt.events[k];
    assert Lists(s, e2, n) ==> MayList(s, n, e2);
  }

  /** Two of its fibers are inside `set`, two register. */
  lemma FourOfKnot(s: State, D: set<FiberId>) returns (f0: FiberId, g0: FiberId, f1: FiberId, g1: FiberId)
    requires Inv(s) && Knot(s, D)
    ensures f0 in D && g0 in D && f1 in D && g1 in D && f0 != f1 && g0 != g1
    ensures f0 < |s.fibers| && s.fibers[f0].pc.Setting? && f1 < |s.fibers| && s.fibers[f1].pc.Setting?
    ensures g0 < |s.fibers| && s.fibers[g0].pc.Registering? && g1 < |s.fibers| && s.fibers[g1].pc.Registering?
  {
    var n0, e1, n1, e2, f2;
    f0 := SomebodySets(s, D);
    n0, g0, e1, f1 := NextLink(s, D, f0);
    NextIsNew(s, f0, s.fibers[f0].pc.e, n0, g0, e1);
    n1, g1, e2, f2 := NextLink(s, D, f1);
  }

  /** So it takes four. */
  lemma KnotNeedsFour(s: State, D: set<FiberId>)
    requires Inv(s) && Knot(s, D)
    ensures |D| >= 4
  {
    var f0, g0, f1, g1 := FourOfKnot(s, D);
    FourMembers(D, f0, g0, f1, g1);
  }

  lemma FourMembers(D: set<FiberId>, a: FiberId, b: FiberId, c: FiberId, d: FiberId)
    requires a in D && b in D && c in D && d in D && a != b && a != c && a != d && b != c && b != d && c != d
    ensures |D| >= 4
  {
    SizeOfSubset({a, b, c, d}, D);
  }

  // ----- when no knot can come up -----

  /** Every call of `waitAny` names its events in rising order of a common ranking. */
  ghost predicate RanksRise(s: State, rank: EventId -> nat) {
    forall n :: 0 <= n < |s.notifiers| ==> Rises(s.notifiers[n].events, rank)
  }

  predicate Rises(es: seq<EventId>, rank: EventId -> nat) {
    forall i, j :: 0 <= i < j < |es| ==> rank(es[i]) < rank(es[j])
  }

  lemma LinkRises(s: State, f: FiberId, e: EventId, n: NotifierId, g: FiberId, e2: EventId, rank: EventId -> nat)
    requires Link(s, f, e, n, g, e2) && RanksRise(s, rank)
    ensures rank(e) < rank(e2)
  {
    var es, i := s.notifiers[n].events, s.fibers[g].pc.i;
    assert Rises(es, rank);
    var k :| 0 <= k < |es[..i]| && es[..i][k] == e;
    assert rank(es[k]) < rank(es[i]);
  }

  lemma {:induction false} RanksAreBounded(E: nat, rank: EventId -> nat) returns (most: nat)
    ensures forall e: EventId :: e < E ==> rank(e) <= most
  {
    most := 0;
    if E > 0 {
      var rest := RanksAreBounded(E - 1, rank);
      most := if rank(E - 1) > rest then rank(E - 1) else rest;
    }
  }

  lemma {:induction false} KnotClimbs(s: State, D: set<FiberId>, f: FiberId, rank: EventId -> nat, most: nat)
    requires Inv(s) && Knot(s, D) && RanksRise(s, rank) && forall e: EventId :: e < |s.events| ==> rank(e) <= most
    requires f in D && f < |s.fibers| && s.fibers[f].pc.Setting? && s.fibers[f].pc.e < |s.events|
    ensures false
    decreases most - rank(s.fibers[f].pc.e)
  {
    var n, g, e2, h := NextLink(s, D, f);
    LinkRises(s, f, s.fibers[f].pc.e, n, g, e2, rank);
    KnotClimbs(s, D, h, rank, most);
  }

  /** With a common ranking there is no knot. */
  lemma RankedNeverKnots(s: State, rank: EventId -> nat, D: set<FiberId>)
    requires Inv(s) && RanksRise(s, rank)
    ensures !Knot(s, D)
  {
    if Knot(s, D) {
      var f := SomebodySets(s, D);
      assert PcOk(s, s.fibers[f], f);
      var most := RanksAreBounded(|s.events|, rank);
      KnotClimbs(s, D, f, rank, most);
    }
  }

  lemma RanksStay(s: State, st: Step, rank: EventId -> nat)
    requires FiberInv(s) && Next(s, st).Some? && RanksRise(s, rank) && (st.op.OpAnyBegin? ==> Rises(st.op.es, rank))
    ensures RanksRise(Next(s, st).value, rank)
  {
    var s' := Next(s, st).value;
    if st.op.OpAnyBegin? {
      AnyStarts(s, st.w, st.op.es);
      assert forall n :: 0 <= n < |s.notifiers| ==> s'.notifiers[n] == s.notifiers[n];
    } else {
      NotifiersRemain(s, st);
      forall n | 0 <= n < |s'.notifiers| ensures Rises(s'.notifiers[n].events, rank) {
        NotifiersStay(s, st, n);
        assert Rises(s.notifiers[n].events, rank);
      }
    }
  }

  lemma NotifiersRemain(s: State, st: Step)
    requires Next(s, st).Some? && !st.op.OpAnyBegin?
    ensures |Next(s, st).value.notifiers| == |s.notifiers|
  {
    if IsRootOp(st.op) { RootStepFrame(s, st); }
  }

  lemma RankedNext(ss: seq<State>, steps: seq<Step>, rank: EventId -> nat, k: nat)
    requires IsRun(ss, steps) && k < |steps| && RanksRise(ss[k], rank) && (steps[k].op.OpAnyBegin? ==> Rises(steps[k].op.es, rank))
    ensures RanksRise(ss[k + 1], rank)
  {
    RunInv(ss, steps, k);
    assert Next(ss[k], steps[k]) == Some(ss[k + 1]);
    RanksStay(ss[k], steps[k], rank);
  }

  /** The calls of `waitAny` among the first k steps name their events in rising order of a common ranking. */
  ghost predicate CallsRise(steps: seq<Step>, rank: EventId -> nat, k: nat) {
    forall i :: 0 <= i < k && i < |steps| && steps[i].op.OpAnyBegin? ==> Rises(steps[i].op.es, rank)
  }

  lemma RankedRun(ss: seq<State>, steps: seq<Step>, rank: EventId -> nat, k: nat)
    requires IsRun(ss, steps) && k < |ss| && CallsRise(steps, rank, k)
    ensures RanksRise(ss[k], rank)
  {
    ghost var holds := seq(|ss|, i requires 0 <= i < |ss| => RanksRise(ss[i], rank));
    assert holds[0];
    forall i | 0 <= i < k && holds[i] ensures holds[i + 1] {
      RankedNext(ss, steps, rank, i);
    }
    Lasts(holds, 0, k);
  }

  // ----- somebody can always go on -----

  /** Going from a worker to the one that it waits for, k times, leads to a worker that can do something. */
  ghost predicate LeadsToFree(s: State, w: WorkerId, k: nat)
    decreases k
  {
    && w < |s.workers|
    && if k == 0 then CanGoOn(s, w)
       else exists w2 :: Awaits(s, w, w2) && LeadsToFree(s, w2, k - 1)
  }

  /** The fiber on worker w waits for a lock that the fiber on worker w2 holds. */
  predicate Awaits(s: State, w: WorkerId, w2: WorkerId) {
    && w < |s.workers| && s.workers[w].cpu.Runs? && w2 < |s.workers| && s.workers[w2].cpu.Runs?
    && Blocker(s, s.workers[w].cpu.f) == Some(s.workers[w2].cpu.f)
  }

  /** Fiber f runs on a worker from which no chain of waiting leads to a free one. */
  ghost predicate Lost(s: State, f: FiberId) {
    exists w: WorkerId :: RunsOn(s, f, w) && forall k: nat :: !LeadsToFree(s, w, k)
  }

  lemma LostWaitsForLost(s: State, f: FiberId)
    requires Inv(s) && Lost(s, f)
    ensures f < |s.fibers| && Blocker(s, f).Some? && Lost(s, Blocker(s, f).value)
  {
    var w: WorkerId :| RunsOn(s, f, w) && forall k: nat :: !LeadsToFree(s, w, k);
    assert !LeadsToFree(s, w, 0);
    GoesOnIff(s, w);
    BothRun(s, f);
    var w2 := RunnerIs(s, Blocker(s, f).value);
    forall k: nat ensures !LeadsToFree(s, w2, k) {
      assert !LeadsToFree(s, w, k + 1);
      assert Awaits(s, w, w2);
    }
  }

  /** Without a knot every worker waits, over a chain of others, for one that can go on: the machine does not stand still. */
  lemma SomebodyGoesOn(s: State, w: WorkerId)
    requires Inv(s) && w < |s.workers| && forall D :: !Knot(s, D)
    ensures exists k: nat :: LeadsToFree(s, w, k)
  {
    GoesOnIff(s, w);
    if CanGoOn(s, w) {
      assert LeadsToFree(s, w, 0);
    } else if forall k: nat :: !LeadsToFree(s, w, k) {
      var f := s.workers[w].cpu.f;
      var D := set g: nat | g < |s.fibers| && Lost(s, g);
      assert RunsOn(s, f, w) && Lost(s, f);
      forall g {:trigger WaitsFor(s, g, D)} | g in D ensures WaitsFor(s, g, D) {
        LostWaitsForLost(s, g);
        BothRun(s, g);
      }
      assert f in D && Knot(s, D);
    }
  }

  /** When all calls of `waitAny` in a run name their events in the order of one ranking, nobody ever waits in vain. */
  lemma RankedRunsGoOn(ss: seq<State>, steps: seq<Step>, rank: EventId -> nat, k: nat, w: WorkerId)
    requires IsRun(ss, steps) && k < |ss| && w < |ss[k].workers| && CallsRise(steps, rank, k)
    ensures exists j: nat :: LeadsToFree(ss[k], w, j)
  {
    RunInv(ss, steps, k);
    RankedRun(ss, steps, rank, k);
    forall D ensures !Knot(ss[k], D) { RankedNeverKnots(ss[k], rank, D); }
    SomebodyGoesOn(ss[k], w);
  }

  // ----- a knot that comes up -----

  /** The first n workers run one fiber each, in user code; all others are outside; no event is set, and nobody waits. */
  predicate Busy(s: State, n: nat) {
    && Quiet(s, n) && s.notifiers == [] && |s.events| == 2 && n <= |s.workers|
    && (forall e :: 0 <= e < 2 ==> s.events[e] == Event(true, false, [], [], [], None, 0, 0, 0))
    && (forall w :: 0 <= w < n ==> s.workers[w].cpu == Runs(w) && s.fibers[w].pc.User?)
  }

  predicate AllCreators(s: State, i: nat) {
    forall w :: i <= w < |s.workers| ==> s.workers[w] == CREATOR
  }

  /** All workers from the i-th on have found room for a fiber. */
  lemma {:induction false} AllCreate(M: nat, W: nat, i: nat) returns (s: State)
    requires W > 0 && M > 0 && i <= W
    ensures PoolState(s, M, W) && Busy(s, 0) && AllCreators(s, i) && forall w :: 0 <= w < i ==> s.workers[w] == HOME
    decreases W - i
  {
    if i == W {
      s := Fresh(M, W, 2);
      FreshIsReachable(M, W, 2);
    } else {
      var s0 := AllCreate(M, W, i + 1);
      ToCreate(s0, i, 0);
      s := s0.(workers := s0.workers[i := CREATOR]);
    }
  }

  lemma {:induction false} AllBusy(M: nat, W: nat, n: nat) returns (s: State)
    requires M > 0 && 0 < W && n <= W
    ensures PoolState(s, M, W) && Busy(s, n) && AllCreators(s, n)
  {
    if n == 0 {
      s := AllCreate(M, W, 0);
    } else {
      var s0 := AllBusy(M, W, n - 1);
      s := Born(s0, n - 1, n - 1);
      assert forall w :: 0 <= w < n - 1 ==> s.fibers[w] == s.fibers[..n - 1][w];
    }
  }

  /** The fiber on worker w is registered with the first of two events, and is about to be with the second. */
  lemma RegisterFirst(s: State, w: WorkerId, es: seq<EventId>) returns (s': State)
    requires Reachable(s) && InUser(s, w) && |es| == 2 && es[0] != es[1] && es[0] < |s.events| && es[1] < |s.events|
    requires s.events[es[0]].setter.None? && !s.events[es[0]].isSet
    ensures Reachable(s') && s'.maxFibers == s.maxFibers && s'.workers == s.workers
    ensures s'.fibers == s.fibers[Current(s, w) := s.fibers[Current(s, w)].(pc := Registering(|s.notifiers|, 1))]
    ensures s'.notifiers == s.notifiers + [Notifier(Current(s, w), es, None, true, 0)]
    ensures s'.events == s.events[es[0] := s.events[es[0]].(anyWaiters := s.events[es[0]].anyWaiters + [|s.notifiers|])]
  {
    assert es == [es[0], es[1]] && NoDup(es);
    var s1 := AnyBegin(s, w, es).value;
    ReachNext(s, Step(w, OpAnyBegin(es)), s1);
    s' := RegisterNext(s1, w, |s.notifiers|, es[0]);
  }

  lemma RegisterNext(s: State, w: WorkerId, n: NotifierId, e: EventId) returns (s': State)
    requires Reachable(s) && Running(s, w) && s.fibers[Current(s, w)].pc == Registering(n, 0) && n < |s.notifiers|
    requires s.notifiers[n].events != [] && s.notifiers[n].events[0] == e && e < |s.events|
    requires s.events[e].setter.None? && !s.events[e].isSet
    ensures Reachable(s') && s'.maxFibers == s.maxFibers && s'.workers == s.workers && s'.notifiers == s.notifiers
    ensures s'.fibers == s.fibers[Current(s, w) := s.fibers[Current(s, w)].(pc := Registering(n, 1))]
    ensures s'.events == s.events[e := s.events[e].(anyWaiters := s.events[e].anyWaiters + [n])]
  {
    s' := AnyRegister(s, w).value;
    ReachNext(s, Step(w, OpAnyRegister), s');
  }

  /** The fiber on worker w begins to set event e. */
  lemma BeginSet(s: State, w: WorkerId, e: EventId) returns (s': State)
    requires Reachable(s) && InUser(s, w) && e < |s.events| && s.events[e].setter.None? && !s.events[e].isSet && s.events[e].auto
    ensures Reachable(s') && s'.maxFibers == s.maxFibers && s'.workers == s.workers && s'.notifiers == s.notifiers
    ensures s'.fibers == s.fibers[Current(s, w) := s.fibers[Current(s, w)].(pc := Setting(e))]
    ensures |s'.events| == |s.events| && s'.events[e].anyWaiters == s.events[e].anyWaiters
    ensures s'.events[e].setter == Some(Setter(Current(s, w), false, false, false))
    ensures forall d :: 0 <= d < |s.events| && d != e ==> s'.events[d] == s.events[d]
  {
    s' := SetBegin(s, w, e, false).value;
    ReachNext(s, Step(w, OpSetBegin(e, false)), s');
  }

  /**
    Two fibers begin to wait for the same two events in opposite orders, while two others set these events: none of the four can
    ever go on.
  */
  lemma KnotComesUp(M: nat, W: nat) returns (s: State)
    requires M > 0 && W >= 4
    ensures PoolState(s, M, W) && Knot(s, {0, 1, 2, 3})
  {
    var s0 := AllBusy(M, W, 4);
    var s1 := TwoRegister(s0);
    s := TwoSet(s1);
    FourWait(s);
  }

  lemma TwoRegister(s: State) returns (s': State)
    requires Reachable(s) && Busy(s, 4)
    ensures Reachable(s') && s'.maxFibers == s.maxFibers && s'.workers == s.workers && |s'.fibers| == 4 && |s'.events| == 2
    ensures s'.fibers[0].pc == Registering(0, 1) && s'.fibers[1].pc == Registering(1, 1)
    ensures s'.fibers[2].pc.User? && s'.fibers[3].pc.User?
    ensures s'.notifiers == [Notifier(0, [0, 1], None, true, 0), Notifier(1, [1, 0], None, true, 0)]
    ensures forall e :: 0 <= e < 2 ==> s'.events[e] == Event(true, false, [], [], [e], None, 0, 0, 0)
  {
    var s1 := RegisterFirst(s, 0, [0, 1]);
    s' := RegisterFirst(s1, 1, [1, 0]);
  }

  lemma TwoSet(s: State) returns (s': State)
    requires Reachable(s) && |s.workers| >= 4 && |s.fibers| == 4 && |s.events| == 2
    requires s.workers[2].cpu == Runs(2) && s.workers[3].cpu == Runs(3) && s.fibers[2].pc.User? && s.fibers[3].pc.User?
    requires forall e :: 0 <= e < 2 ==> s.events[e] == Event(true, false, [], [], [e], None, 0, 0, 0)
    ensures Reachable(s') && s'.maxFibers == s.maxFibers && s'.workers == s.workers && s'.notifiers == s.notifiers
    ensures |s'.fibers| == 4 && s'.fibers[0] == s.fibers[0] && s'.fibers[1] == s.fibers[1]
    ensures s'.fibers[2].pc == Setting(0) && s'.fibers[3].pc == Setting(1) && |s'.events| == 2
    ensures forall e :: 0 <= e < 2 ==> s'.events[e].anyWaiters == [e] && s'.events[e].setter == Some(Setter(e + 2, false, false, false))
  {
    var s1 := BeginSet(s, 2, 0);
    s' := BeginSet(s1, 3, 1);
  }

  lemma FourWait(s: State)
    requires |s.fibers| == 4 && |s.events| == 2 && |s.notifiers| == 2
    requires s.fibers[0].pc == Registering(0, 1) && s.fibers[1].pc == Registering(1, 1)
    requires s.fibers[2].pc == Setting(0) && s.fibers[3].pc == Setting(1)
    requires s.notifiers == [Notifier(0, [0, 1], None, true, 0), Notifier(1, [1, 0], None, true, 0)]
    requires forall e :: 0 <= e < 2 ==> s.events[e].anyWaiters == [e] && s.events[e].setter == Some(Setter(e + 2, false, false, false))
    ensures Knot(s, {0, 1, 2, 3})
  {
    assert Blocker(s, 0) == Some(3) && Blocker(s, 1) == Some(2) && Blocker(s, 2) == Some(0) && Blocker(s, 3) == Some(1);
    forall f {:trigger WaitsFor(s, f, {0, 1, 2, 3})} | f in {0, 1, 2, 3} ensures WaitsFor(s, f, {0, 1, 2, 3}) {
    }
  }

  lemma {:induction false} OnePerFiber(s: State, D: set<FiberId>) returns (ws: set<WorkerId>)
    requires CpuInv(s) && forall f :: f in D ==> f < |s.fibers| && !s.fibers[f].pc.Parked?
    ensures |ws| == |D| && forall w :: w in ws ==> w < |s.workers| && s.workers[w].cpu.Runs? && s.workers[w].cpu.f in D
  {
    ws := {};
    if f :| f in D {
      ws := OnePerFiber(s, D - {f});
      var w := RunnerIs(s, f);
      assert w !in ws;
      ws := ws + {w};
    }
  }

  lemma KnotNeedsWorkers(s: State, D: set<FiberId>)
    requires Inv(s) && Knot(s, D)
    ensures |s.workers| >= 4
  {
    KnotNeedsFour(s, D);
    forall f | f in D ensures f < |s.fibers| && !s.fibers[f].pc.Parked? {
      assert WaitsFor(s, f, D);
      BothRun(s, f);
    }
    var ws := OnePerFiber(s, D);
    assert ws <= NumbersBelow(|s.workers|);
    SizeOfSubset(ws, NumbersBelow(|s.workers|));
  }

  /** A pool can come to a knot exactly when it has at least four workers, and may have fibers at all. */
  lemma KnotsComeUpIff(M: nat, W: nat)
    requires W > 0
    ensures (exists s, D :: PoolState(s, M, W) && Knot(s, D)) <==> W >= 4 && M > 0
  {
    forall s, D | PoolState(s, M, W) && Knot(s, D) ensures W >= 4 && M > 0 {
      ReachInv(s);
      KnotNeedsWorkers(s, D);
      AtMostFibers(s, M, W);
      var f := SomebodySets(s, D);
    }
    if W >= 4 && M > 0 { var s := KnotComesUp(M, W); }
  }
}
