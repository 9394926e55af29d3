/** The invariant of the fiber runtime: every reachable state satisfies it. */
module FiberInvariant {
  import opened Basics
  import opened FiberModel

  function IdleHands(m: Mode): seq<FiberId> {
    match m
    case TakeTask(x) => x
    case TakeIdle(x, _) => x
    case Create(x, _) => x
    case IdleHand(x, _, f) => x + [f]
    case NoFiber(x, _) => x
    case PutIdle(x) => x
    case _ => []
  }

  function ReadyHands(m: Mode): seq<FiberId> {
    match m
    case ReadyPass(_, x) => x
    case ReadyHand(_, x, f) => x + [f]
    case ReadyPutBack(_, x) => x
    case _ => []
  }

  predicate Is(s: State, f: FiberId, p: Place) {
    f < |s.fibers| && s.fibers[f].place == p
  }

  predicate PcIs(s: State, f: FiberId, pc: Pc) {
    f < |s.fibers| && s.fibers[f].pc == pc
  }

  /** The shared or local structure that place p names contains fiber f. */
  predicate Holds(s: State, p: Place, f: FiberId) {
    match p
    case Nowhere => false
    case InIdle => f in s.idle
    case InReady => f in s.ready
    case InIdleHand(w) => w < |s.workers| && f in IdleHands(s.workers[w].mode)
    case InReadyHand(w) => w < |s.workers| && f in ReadyHands(s.workers[w].mode)
    case InEvent(e) => e < |s.events| && f in s.events[e].waiters
    case InMutex(m) => m < |s.mutexes| && s.mutexes[m].owners != [] && f in s.mutexes[m].owners[1..]
    case InNotifier(n) =>
      n < |s.notifiers| && s.notifiers[n].initiator == f && s.notifiers[n].key.None? && PcIs(s, f, Parked(OnAny(n)))
  }

  /** A fiber is held by the structure its place names, and by no other. */
  ghost predicate PlaceInv(s: State) {
    forall p: Place, f: FiberId :: p != Nowhere ==> (Holds(s, p, f) <==> Is(s, f, p))
  }

  /** No structure holds a fiber twice. */
  ghost predicate DistinctInv(s: State) {
    && NoDup(s.ready)
    && (forall w :: 0 <= w < |s.workers| ==> NoDup(IdleHands(s.workers[w].mode)))
    && (forall w :: 0 <= w < |s.workers| ==> NoDup(ReadyHands(s.workers[w].mode)))
    && (forall e :: 0 <= e < |s.events| ==> NoDup(s.events[e].waiters))
    && (forall m :: 0 <= m < |s.mutexes| ==> OwnersOk(s.mutexes[m]))
  }

  predicate OwnersOk(mx: Mutex) {
    NoDup(mx.owners) && mx.released <= |mx.arrivals| && mx.owners == mx.arrivals[mx.released..]
  }

  /** A fiber that waits for a mutex but has been taken off its tail is the owner. */
  ghost predicate MutexInv(s: State) {
    forall f :: 0 <= f < |s.fibers| ==> Granted(s, s.fibers[f], f)
  }

  predicate Granted(s: State, fb: Fiber, f: FiberId) {
    fb.pc.Parked? && fb.pc.why.OnMutex? && fb.place != InMutex(fb.pc.why.m) ==>
      var m := fb.pc.why.m;
      m < |s.mutexes| && s.mutexes[m].owners != [] && s.mutexes[m].owners[0] == f
  }

  /** A worker's processor and a fiber's lock agree. */
  ghost predicate CpuInv(s: State) {
    && (forall w :: 0 <= w < |s.workers| && !s.workers[w].cpu.Root? ==>
          s.workers[w].cpu.f < |s.fibers| && s.fibers[s.workers[w].cpu.f].runner == Some(w))
    && (forall w :: 0 <= w < |s.workers| && s.workers[w].cpu.Leaves? ==>
          s.workers[w].cpu.f < |s.fibers| && s.fibers[s.workers[w].cpu.f].pc.Parked?)
    && (forall f :: 0 <= f < |s.fibers| ==> FiberCpu(s, s.fibers[f], f))
  }

  predicate FiberCpu(s: State, fb: Fiber, f: FiberId) {
    && fb.locked == fb.runner.Some?
    && (fb.runner.Some? ==> fb.runner.value < |s.workers| && !s.workers[fb.runner.value].cpu.Root?
                            && s.workers[fb.runner.value].cpu.f == f)
    && (!fb.pc.Parked? ==> fb.runner.Some? && s.workers[fb.runner.value].cpu == Runs(f))
  }

  /** Where a fiber may be registered, given what it waits for. */
  predicate Fits(s: State, fb: Fiber) {
    match fb.place
    case Nowhere => !fb.pc.Parked?
    case InIdle => fb.pc == Parked(Finished)
    case InIdleHand(w) => fb.pc == Parked(Finished) && w < |s.workers|
    case InReady => fb.pc.Parked? && !fb.pc.why.Finished?
    case InReadyHand(w) => fb.pc.Parked? && !fb.pc.why.Finished? && w < |s.workers|
    case InEvent(e) => fb.pc == Parked(OnEvent(e)) && e < |s.events|
    case InMutex(m) => fb.pc == Parked(OnMutex(m)) && m < |s.mutexes|
    case InNotifier(n) => fb.pc == Parked(OnAny(n)) && n < |s.notifiers| && s.notifiers[n].key.None?
  }

  predicate PcOk(s: State, fb: Fiber, f: FiberId) {
    match fb.pc
    case User => true
    case Parked(why) =>
      && (why.OnAny? ==> why.n < |s.notifiers| && s.notifiers[why.n].initiator == f
                         && (s.notifiers[why.n].key.None? ==> fb.place == InNotifier(why.n)))
      && (why.OnMutex? ==> why.m < |s.mutexes|)
    case Setting(e) => e < |s.events| && s.events[e].setter.Some? && s.events[e].setter.value.owner == f
    case Registering(n, i) =>
      n < |s.notifiers| && s.notifiers[n].initiator == f && i <= |s.notifiers[n].events| && s.notifiers[n].key.None?
    case RollingBack(n, i, j) =>
      && n < |s.notifiers| && s.notifiers[n].initiator == f && j <= i < |s.notifiers[n].events|
      && s.notifiers[n].key == Some(s.notifiers[n].events[i])
    case Cancelling(n, j) =>
      n < |s.notifiers| && s.notifiers[n].initiator == f && j <= |s.notifiers[n].events| && s.notifiers[n].key.Some?
  }

  ghost predicate FiberInv(s: State) {
    && (forall f :: 0 <= f < |s.fibers| ==> Fits(s, s.fibers[f]))
    && (forall f :: 0 <= f < |s.fibers| ==> PcOk(s, s.fibers[f], f))
  }

  predicate EventOk(s: State, ev: Event, e: EventId) {
    && (ev.setter.Some? ==> PcIs(s, ev.setter.value.owner, Setting(e)))
    && (ev.isSet && ev.setter.None? ==> ev.waiters == [] && ev.anyWaiters == [])
    && (ev.auto && ev.isSet ==> ev.setter.None?)
    && (!ev.auto && ev.setter.Some? ==> ev.isSet)
    && (ev.auto && ev.setter.Some? && ev.setter.value.all ==> ev.anyWaiters == [])
    && (ev.auto && ev.setter.Some? && !ev.setter.value.all ==> (ev.setter.value.woke <==> ev.setter.value.done))
    && (ev.setter.Some? && ev.setter.value.done ==> ev.auto && !ev.setter.value.all)
    && (ev.setter.None? ==> ev.visited == [])
    && (ev.auto ==> Balance(ev))
  }

  /** Every signal given to an auto-reset event was taken, cleared, is stored, or is being handed out. */
  predicate Balance(ev: Event) {
    ev.given == ev.taken + ev.cleared + (if ev.isSet then 1 else 0)
                + (if ev.setter.Some? && !ev.setter.value.woke then 1 else 0)
  }

  ghost predicate EventInv(s: State) {
    forall e :: 0 <= e < |s.events| ==> EventOk(s, s.events[e], e)
  }

  predicate NotifierOk(s: State, nt: Notifier, n: NotifierId) {
    && nt.initiator < |s.fibers|
    && NoDup(nt.events)
    && (forall e :: e in nt.events ==> e < |s.events|)
    && (nt.key.Some? ==> nt.key.value in nt.events)
    && nt.answers == (if nt.key.Some? then 1 else 0)
    && (nt.locked <==> s.fibers[nt.initiator].pc.Registering? && s.fibers[nt.initiator].pc.n == n)
  }

  /** Event e may still list notifier n. */
  predicate MayList(s: State, n: NotifierId, e: EventId) {
    && n < |s.notifiers| && s.notifiers[n].initiator < |s.fibers|
    && var nt := s.notifiers[n];
    match s.fibers[nt.initiator].pc
    case Registering(n', i) => n' == n && i <= |nt.events| && e in nt.events[..i]
    case Parked(why) => why == OnAny(n) && e in nt.events && nt.key != Some(e)
    case RollingBack(n', i, j) => n' == n && j <= i <= |nt.events| && e in nt.events[j..i]
    case Cancelling(n', j) => n' == n && j <= |nt.events| && e in nt.events[j..] && nt.key != Some(e)
    case _ => false
  }

  predicate Lists(s: State, e: EventId, n: NotifierId) {
    e < |s.events| && n in s.events[e].anyWaiters
  }

  /** An unfired notifier stands in every event it has been registered with. */
  predicate MustList(s: State, n: NotifierId, k: nat) {
    && n < |s.notifiers| && s.notifiers[n].initiator < |s.fibers| && k < |s.notifiers[n].events|
    && match s.fibers[s.notifiers[n].initiator].pc
       case Registering(n', i) => n' == n && k < i
       case Parked(why) => why == OnAny(n) && s.notifiers[n].key.None?
       case _ => false
  }

  ghost predicate NotifierInv(s: State) {
    && (forall n :: 0 <= n < |s.notifiers| ==> NotifierOk(s, s.notifiers[n], n))
    && (forall e :: 0 <= e < |s.events| ==> NoDup(s.events[e].anyWaiters))
    && (forall e: nat, n: nat :: Lists(s, e, n) ==> MayList(s, n, e))
    && (forall n: nat, k: nat :: MustList(s, n, k) ==> Lists(s, s.notifiers[n].events[k], n))
  }

  ghost function Creating(s: State): set<WorkerId> {
    set w | 0 <= w < |s.workers| && s.workers[w].mode.Create?
  }

  ghost predicate CountInv(s: State) {
    && |s.workers| > 0
    && s.total == |s.fibers|
    && s.total + |Creating(s)| <= s.maxFibers + |s.workers| - 1
  }

  ghost predicate Inv(s: State) {
    PlaceInv(s) && DistinctInv(s) && MutexInv(s) && CpuInv(s) && FiberInv(s) && EventInv(s)
    && NotifierInv(s) && CountInv(s)
  }
}
