/** Context switches and the plain steps of a running fiber keep the invariant. */
module FiberUserSteps {
  import opened Basics
  import opened FiberModel
  import opened FiberInvariant
  import opened FiberRootSteps

  // ----- frames -----

  predicate Mentions(pc: Pc, n: NotifierId) {
    match pc
    case Parked(why) => why == OnAny(n)
    case Registering(n', _) => n' == n
    case RollingBack(n', _, _) => n' == n
    case Cancelling(n', _) => n' == n
    case _ => false
  }

  lemma EventsFrame(s: State, s': State)
    requires EventInv(s) && s'.events == s.events
    requires forall f, e :: PcIs(s, f, Setting(e)) ==> PcIs(s', f, Setting(e))
    ensures EventInv(s')
  {
    forall e | 0 <= e < |s'.events| ensures EventOk(s', s'.events[e], e) { assert EventOk(s, s.events[e], e); }
  }

  predicate SamePcFor(s: State, s': State, f: FiberId, n: NotifierId) {
    f < |s.fibers| && f < |s'.fibers|
    && (s'.fibers[f].pc == s.fibers[f].pc || (!Mentions(s.fibers[f].pc, n) && !Mentions(s'.fibers[f].pc, n)))
  }

  lemma NotifiersFrame(s: State, s': State)
    requires NotifierInv(s) && s'.notifiers == s.notifiers && |s'.events| == |s.events|
    requires forall e :: 0 <= e < |s.events| ==> s'.events[e].anyWaiters == s.events[e].anyWaiters
    requires forall n :: 0 <= n < |s.notifiers| ==> SamePcFor(s, s', s.notifiers[n].initiator, n)
    ensures NotifierInv(s')
  {
    forall n | 0 <= n < |s'.notifiers| ensures NotifierOk(s', s'.notifiers[n], n) { assert NotifierOk(s, s.notifiers[n], n); }
    forall e: nat, n: nat | Lists(s', e, n) ensures MayList(s', n, e) {
      assert Lists(s, e, n);
      assert MayList(s, n, e);
    }
    forall n: nat, k: nat | MustList(s', n, k) ensures Lists(s', s'.notifiers[n].events[k], n) {
      assert SamePcFor(s, s', s.notifiers[n].initiator, n);
      assert MustList(s, n, k);
      assert Lists(s, s.notifiers[n].events[k], n);
    }
  }

  /** The processors stay; a running fiber may do anything to its own pc. */
  lemma CpuFrame(s: State, s': State)
    requires CpuInv(s) && |s'.workers| == |s.workers| && |s'.fibers| == |s.fibers|
    requires forall w :: 0 <= w < |s.workers| ==> s'.workers[w].cpu == s.workers[w].cpu
    requires forall f :: 0 <= f < |s.fibers| ==>
               && s'.fibers[f].locked == s.fibers[f].locked && s'.fibers[f].runner == s.fibers[f].runner
               && (s.fibers[f].pc.Parked? ==> s'.fibers[f].pc.Parked?)
    ensures CpuInv(s')
  {
    forall f | 0 <= f < |s'.fibers| ensures FiberCpu(s', s'.fibers[f], f) { assert FiberCpu(s, s.fibers[f], f); }
  }

  lemma CountFrame(s: State, s': State)
    requires CountInv(s) && s'.total == s.total && s'.maxFibers == s.maxFibers && |s'.fibers| == |s.fibers|
    requires |s'.workers| == |s.workers|
    requires forall w :: 0 <= w < |s.workers| ==> s'.workers[w].mode == s.workers[w].mode
    ensures CountInv(s')
  {
    assert Creating(s') == Creating(s);
  }

  /** A fiber that runs its own code stands in no structure. */
  lemma RunningIsNowhere(s: State, w: WorkerId)
    requires PlaceInv(s) && FiberInv(s) && Running(s, w) && !s.fibers[Current(s, w)].pc.Parked?
    ensures s.fibers[Current(s, w)].place == Nowhere
    ensures forall p: Place :: p != Nowhere ==> !Holds(s, p, Current(s, w))
  {
    assert Fits(s, s.fibers[Current(s, w)]);
    forall p: Place | p != Nowhere ensures !Holds(s, p, Current(s, w)) {
      assert Holds(s, p, Current(s, w)) <==> Is(s, Current(s, w), p);
    }
  }

  predicate FiberOk(s: State, f: FiberId) {
    f < |s.fibers| && Fits(s, s.fibers[f]) && PcOk(s, s.fibers[f], f) && Granted(s, s.fibers[f], f)
  }

  /** What the unchanged fibers rely on: setters, owners and notifiers of theirs are left alone. */
  ghost predicate KeepsOthers(s: State, s': State, changed: set<FiberId>) {
    && |s'.fibers| == |s.fibers| && |s'.workers| == |s.workers| && |s'.events| == |s.events|
    && |s'.mutexes| == |s.mutexes| && |s'.notifiers| >= |s.notifiers|
    && (forall g :: 0 <= g < |s.fibers| && g !in changed ==> s'.fibers[g] == s.fibers[g])
    && (forall e :: 0 <= e < |s.events| && s.events[e].setter.Some? && s.events[e].setter.value.owner !in changed ==>
          s'.events[e].setter.Some? && s'.events[e].setter.value.owner == s.events[e].setter.value.owner)
    && (forall m :: 0 <= m < |s.mutexes| && s.mutexes[m].owners != [] && s.mutexes[m].owners[0] !in changed ==>
          s'.mutexes[m].owners != [] && s'.mutexes[m].owners[0] == s.mutexes[m].owners[0])
    && (forall n :: 0 <= n < |s.notifiers| && s.notifiers[n].initiator !in changed ==>
          s'.notifiers[n] == s.notifiers[n])
  }

  lemma FibersFrame(s: State, s': State, changed: set<FiberId>)
    requires FiberInv(s) && MutexInv(s) && KeepsOthers(s, s', changed)
    requires forall n :: 0 <= n < |s.notifiers| ==> s'.notifiers[n].initiator == s.notifiers[n].initiator
    requires forall g :: g in changed && g < |s.fibers| ==> FiberOk(s', g)
    ensures FiberInv(s') && MutexInv(s')
  {
    forall g | 0 <= g < |s'.fibers| ensures FiberOk(s', g) {
      if g !in changed {
        assert Fits(s, s.fibers[g]) && PcOk(s, s.fibers[g], g) && Granted(s, s.fibers[g], g);
      }
    }
  }

  lemma InitiatorsKnown(s: State)
    requires NotifierInv(s)
    ensures forall n :: 0 <= n < |s.notifiers| ==> s.notifiers[n].initiator < |s.fibers|
  {
    forall n | 0 <= n < |s.notifiers| ensures s.notifiers[n].initiator < |s.fibers| { assert NotifierOk(s, s.notifiers[n], n); }
  }

  // ----- context switches -----

  lemma LeaveFiberCpu(s: State, w: WorkerId)
    requires CpuInv(s) && LeaveFiber(s, w).Some?
    ensures CpuInv(LeaveFiber(s, w).value)
  {
    var s' := LeaveFiber(s, w).value;
    forall g | 0 <= g < |s'.fibers| ensures FiberCpu(s', s'.fibers[g], g) { assert FiberCpu(s, s.fibers[g], g); }
  }

  lemma LeaveFiberKeeps(s: State, w: WorkerId)
    requires Inv(s) && LeaveFiber(s, w).Some?
    ensures Inv(LeaveFiber(s, w).value)
  {
    var s' := LeaveFiber(s, w).value;
    var f := s.workers[w].cpu.f;
    SamePlaces(s, s');
    LeaveFiberCpu(s, w);
    assert Fits(s, s.fibers[f]) && PcOk(s, s.fibers[f], f) && Granted(s, s.fibers[f], f);
    FibersFrame(s, s', {f});
    EventsFrame(s, s');
    InitiatorsKnown(s);
    NotifiersFrame(s, s');
    CountFrame(s, s');
  }

  /** Nothing is registered or taken: places, containers and waiting pcs are as before. */
  lemma SamePlaces(s: State, s': State)
    requires PlaceInv(s) && DistinctInv(s)
    requires |s'.fibers| == |s.fibers| && s'.idle == s.idle && s'.ready == s.ready
    requires |s'.events| == |s.events| && |s'.mutexes| == |s.mutexes| && |s'.workers| == |s.workers|
    requires forall e :: 0 <= e < |s.events| ==> s'.events[e].waiters == s.events[e].waiters
    requires forall m :: 0 <= m < |s.mutexes| ==>
               OwnersOk(s'.mutexes[m]) && (s'.mutexes[m].owners == s.mutexes[m].owners
                                           || (|s'.mutexes[m].owners| <= 1 && |s.mutexes[m].owners| <= 1))
    requires forall w :: 0 <= w < |s.workers| ==> s'.workers[w].mode == s.workers[w].mode
    requires forall f :: 0 <= f < |s.fibers| ==> s'.fibers[f].place == s.fibers[f].place
    requires forall n: NotifierId, f: FiberId :: Holds(s', InNotifier(n), f) <==> Holds(s, InNotifier(n), f)
    ensures PlaceInv(s') && DistinctInv(s')
  {
    forall p: Place, f: FiberId | p != Nowhere ensures Holds(s', p, f) <==> Is(s', f, p) {
      assert Holds(s, p, f) <==> Is(s, f, p);
    }
  }

  lemma SwitchOutKeeps(s: State, w: WorkerId)
    requires Inv(s) && SwitchOut(s, w).Some?
    ensures Inv(SwitchOut(s, w).value)
  {
    var s' := SwitchOut(s, w).value;
    SamePlaces(s, s');
    assert CpuInv(s') by {
      forall g | 0 <= g < |s'.fibers| ensures FiberCpu(s', s'.fibers[g], g) { assert FiberCpu(s, s.fibers[g], g); }
    }
    FibersFrame(s, s', {});
    EventsFrame(s, s');
    InitiatorsKnown(s);
    NotifiersFrame(s, s');
    CountFrame(s, s');
  }

  /** The switch to fiber f, which stood in w's hand h. */
  lemma SwitchPlaces(s: State, w: WorkerId, f: FiberId, h: Place, back: Mode, pc: Pc)
    requires PlaceInv(s) && DistinctInv(s) && AtRoot(s, w) && f < |s.fibers|
    requires Is(s, f, h) && (h == InReadyHand(w) || h == InIdleHand(w)) && !pc.Parked?
    requires NoDup(IdleHands(back)) && NoDup(ReadyHands(back))
    requires forall g :: g in IdleHands(back) <==> g in IdleHands(s.workers[w].mode) && g != f
    requires forall g :: g in ReadyHands(back) <==> g in ReadyHands(s.workers[w].mode) && g != f
    ensures PlaceInv(Switch(s, w, f, back, pc)) && DistinctInv(Switch(s, w, f, back, pc))
  {
    var s' := Switch(s, w, f, back, pc);
    forall p: Place, g: FiberId | p != Nowhere ensures Holds(s', p, g) <==> Is(s', g, p) {
      assert Holds(s, p, g) <==> Is(s, g, p);
    }
  }

  lemma SwitchKeeps(s: State, w: WorkerId, f: FiberId, back: Mode, pc: Pc)
    requires MutexInv(s) && CpuInv(s) && FiberInv(s) && EventInv(s) && NotifierInv(s)
    requires AtRoot(s, w) && f < |s.fibers| && !s.fibers[f].locked && s.fibers[f].pc.Parked?
    requires pc == Resumed(s.fibers[f].pc.why)
    requires !s.fibers[f].place.InNotifier?
    ensures var s' := Switch(s, w, f, back, pc); MutexInv(s') && CpuInv(s') && FiberInv(s') && EventInv(s') && NotifierInv(s')
  {
    var s' := Switch(s, w, f, back, pc);
    assert FiberCpu(s, s.fibers[f], f);
    assert PcOk(s, s.fibers[f], f);
    assert CpuInv(s') by {
      forall g | 0 <= g < |s'.fibers| ensures FiberCpu(s', s'.fibers[g], g) { assert FiberCpu(s, s.fibers[g], g); }
    }
    FibersFrame(s, s', {f});
    EventsFrame(s, s');
    SwitchNotifiers(s, w, f, back, pc);
  }

  lemma SwitchNotifiers(s: State, w: WorkerId, f: FiberId, back: Mode, pc: Pc)
    requires FiberInv(s) && NotifierInv(s)
    requires AtRoot(s, w) && f < |s.fibers| && s.fibers[f].pc.Parked?
    requires pc == Resumed(s.fibers[f].pc.why)
    requires !s.fibers[f].place.InNotifier?
    ensures NotifierInv(Switch(s, w, f, back, pc))
  {
    var s' := Switch(s, w, f, back, pc);
    assert PcOk(s, s.fibers[f], f);
    forall n | 0 <= n < |s'.notifiers| ensures NotifierOk(s', s'.notifiers[n], n) { assert NotifierOk(s, s.notifiers[n], n); }
    forall e: nat, n: nat | Lists(s', e, n) ensures MayList(s', n, e) {
      assert Lists(s, e, n);
      assert MayList(s, n, e);
    }
    forall n: nat, k: nat | MustList(s', n, k) ensures Lists(s', s'.notifiers[n].events[k], n) {
      assert NotifierOk(s, s.notifiers[n], n);
      assert MustList(s, n, k);
      assert Lists(s, s.notifiers[n].events[k], n);
    }
  }

  lemma EnterReadyKeeps(s: State, w: WorkerId)
    requires Inv(s) && EnterReady(s, w).Some?
    ensures Inv(EnterReady(s, w).value)
  {
    var m := s.workers[w].mode;
    if s.fibers[m.f].locked {
      EnterReadyLockedKeeps(s, w);
    } else {
      var s' := EnterReady(s, w).value;
      SnocMembers(m.failed, m.f);
      assert ReadyHands(m)[|m.failed|] == m.f;
      assert Holds(s, InReadyHand(w), m.f);
      assert Is(s, m.f, InReadyHand(w));
      assert NoDup(ReadyHands(m));
      NoDupPrefix(m.failed, m.f);
      SwitchPlaces(s, w, m.f, InReadyHand(w), ReadyPass(m.pass, m.failed), Resumed(s.fibers[m.f].pc.why));
      SwitchKeeps(s, w, m.f, ReadyPass(m.pass, m.failed), Resumed(s.fibers[m.f].pc.why));
      SameCreators(s, s');
    }
  }

  lemma NoDupPrefix<T>(a: seq<T>, x: T)
    requires NoDup(a + [x])
    ensures NoDup(a) && x !in a
  {
    var b := a + [x];
    forall i, j | 0 <= i < j < |a| ensures a[i] != a[j] { assert b[i] != b[j]; }
    forall i | 0 <= i < |a| ensures a[i] != x { assert b[i] != b[|a|]; }
  }

  lemma EnterIdleKeeps(s: State, w: WorkerId)
    requires Inv(s) && EnterIdle(s, w).Some?
    ensures Inv(EnterIdle(s, w).value)
  {
    var m := s.workers[w].mode;
    if s.fibers[m.f].locked {
      EnterIdleLockedKeeps(s, w);
    } else {
      var s' := EnterIdle(s, w).value;
      var back := if m.queued then TakeTask(m.failed) else PutIdle(m.failed);
      SnocMembers(m.failed, m.f);
      assert IdleHands(m)[|m.failed|] == m.f;
      assert Holds(s, InIdleHand(w), m.f);
      assert Is(s, m.f, InIdleHand(w));
      assert NoDup(IdleHands(m));
      NoDupPrefix(m.failed, m.f);
      assert Fits(s, s.fibers[m.f]);
      SwitchPlaces(s, w, m.f, InIdleHand(w), back, User);
      SwitchKeeps(s, w, m.f, back, User);
      SameCreators(s, s');
    }
  }

  // ----- a new fiber -----

  lemma CreateFiberPlaces(s: State, w: WorkerId)
    requires PlaceInv(s) && DistinctInv(s) && NotifierInv(s) && CreateFiber(s, w, true).Some?
    ensures PlaceInv(CreateFiber(s, w, true).value) && DistinctInv(CreateFiber(s, w, true).value)
  {
    var s' := CreateFiber(s, w, true).value;
    var f := |s.fibers|;
    SnocMembers(s.workers[w].mode.failed, f);
    InitiatorsKnown(s);
    forall p: Place, g: FiberId | p != Nowhere ensures Holds(s', p, g) <==> Is(s', g, p) {
      assert Holds(s, p, g) <==> Is(s, g, p);
    }
    assert !Holds(s, InIdleHand(w), f) by { assert !Is(s, f, InIdleHand(w)); }
  }

  lemma CreateFiberRest(s: State, w: WorkerId)
    requires Inv(s) && CreateFiber(s, w, true).Some?
    ensures var s' := CreateFiber(s, w, true).value;
            MutexInv(s') && CpuInv(s') && FiberInv(s') && EventInv(s')
  {
    var s' := CreateFiber(s, w, true).value;
    assert CpuInv(s') by {
      forall g | 0 <= g < |s'.fibers| ensures FiberCpu(s', s'.fibers[g], g) {
        if g < |s.fibers| { assert FiberCpu(s, s.fibers[g], g); }
      }
    }
    forall g | 0 <= g < |s'.fibers| ensures FiberOk(s', g) {
      if g < |s.fibers| { assert Fits(s, s.fibers[g]) && PcOk(s, s.fibers[g], g) && Granted(s, s.fibers[g], g); }
    }
    EventsFrame(s, s');
  }

  lemma CreateFiberKeeps(s: State, w: WorkerId, ok: bool)
    requires Inv(s) && CreateFiber(s, w, ok).Some?
    ensures Inv(CreateFiber(s, w, ok).value)
  {
    if !ok {
      CreateFailedKeeps(s, w);
    } else {
      var s' := CreateFiber(s, w, true).value;
      CreateFiberPlaces(s, w);
      CreateFiberRest(s, w);
      InitiatorsKnown(s);
      NotifiersFrame(s, s');
      assert Creating(s') == Creating(s) - {w};
    }
  }

  // ----- giving up the processor -----

  /** Running fiber f parks in a pool structure, or registers at an event or a mutex. */
  lemma ParkFibers(s: State, s': State, w: WorkerId)
    requires Inv(s) && InUser(s, w)
    requires KeepsOthers(s, s', {Current(s, w)}) && s'.notifiers == s.notifiers
    requires s'.workers == s.workers
    requires FiberOk(s', Current(s, w))
    requires s'.fibers[Current(s, w)].locked == s.fibers[Current(s, w)].locked
    requires s'.fibers[Current(s, w)].runner == s.fibers[Current(s, w)].runner
    requires s'.fibers[Current(s, w)].pc.User? || (s'.fibers[Current(s, w)].pc.Parked? && !s'.fibers[Current(s, w)].pc.why.OnAny?)
             || s'.fibers[Current(s, w)].pc.Setting?
    requires forall e :: 0 <= e < |s.events| ==> s'.events[e].anyWaiters == s.events[e].anyWaiters
    requires s'.total == s.total && s'.maxFibers == s.maxFibers
    ensures MutexInv(s') && CpuInv(s') && FiberInv(s') && NotifierInv(s') && CountInv(s')
  {
    CpuFrame(s, s');
    FibersFrame(s, s', {Current(s, w)});
    InitiatorsKnown(s);
    NotifiersFrame(s, s');
    CountFrame(s, s');
  }

  lemma FinishKeeps(s: State, w: WorkerId)
    requires Inv(s) && Finish(s, w).Some?
    ensures Inv(Finish(s, w).value)
  {
    var s' := Finish(s, w).value;
    RunningIsNowhere(s, w);
    FinishPlaces(s, w);
    ParkFibers(s, s', w);
    EventsFrame(s, s');
  }

  lemma FinishPlaces(s: State, w: WorkerId)
    requires PlaceInv(s) && DistinctInv(s) && Finish(s, w).Some? && s.fibers[Current(s, w)].place == Nowhere
    ensures PlaceInv(Finish(s, w).value) && DistinctInv(Finish(s, w).value)
  {
    var s' := Finish(s, w).value;
    forall p: Place, g: FiberId | p != Nowhere ensures Holds(s', p, g) <==> Is(s', g, p) {
      assert Holds(s, p, g) <==> Is(s, g, p);
    }
  }

  lemma YieldKeeps(s: State, w: WorkerId)
    requires Inv(s) && Yield(s, w).Some?
    ensures Inv(Yield(s, w).value)
  {
    var s' := Yield(s, w).value;
    RunningIsNowhere(s, w);
    YieldPlaces(s, w);
    ParkFibers(s, s', w);
    EventsFrame(s, s');
  }

  lemma YieldPlaces(s: State, w: WorkerId)
    requires PlaceInv(s) && DistinctInv(s) && Yield(s, w).Some? && s.fibers[Current(s, w)].place == Nowhere
    ensures PlaceInv(Yield(s, w).value) && DistinctInv(Yield(s, w).value)
  {
    var s' := Yield(s, w).value;
    SnocMembers(s.ready, Current(s, w));
    assert !Holds(s, InReady, Current(s, w)) by { assert !Is(s, Current(s, w), InReady); }
    forall p: Place, g: FiberId | p != Nowhere ensures Holds(s', p, g) <==> Is(s', g, p) {
      assert Holds(s, p, g) <==> Is(s, g, p);
    }
  }
}
