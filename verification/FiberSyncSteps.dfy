/** Mutex and event steps keep the invariant. */
module FiberSyncSteps {
  import opened Basics
  import opened FiberModel
  import opened FiberInvariant
  import opened FiberUserSteps

  // ----- mutex.cpp -----

  lemma LockFreePlaces(s: State, w: WorkerId, m: MutexId)
    requires PlaceInv(s) && DistinctInv(s) && Lock(s, w, m).Some? && s.mutexes[m].owners == []
    ensures PlaceInv(Lock(s, w, m).value) && DistinctInv(Lock(s, w, m).value)
  {
    var s' := Lock(s, w, m).value;
    assert (s.mutexes[m].arrivals + [Current(s, w)])[s.mutexes[m].released..] == [Current(s, w)];
    SamePlaces(s, s');
  }

  lemma LockBusyPlaces(s: State, w: WorkerId, m: MutexId)
    requires PlaceInv(s) && DistinctInv(s) && Lock(s, w, m).Some? && s.mutexes[m].owners != []
    requires s.fibers[Current(s, w)].place == Nowhere
    ensures PlaceInv(Lock(s, w, m).value) && DistinctInv(Lock(s, w, m).value)
  {
    var s' := Lock(s, w, m).value;
    var f, mx := Current(s, w), s.mutexes[m];
    var mx' := s'.mutexes[m];
    SnocMembers(mx.owners, f);
    assert mx'.owners == mx'.arrivals[mx'.released..];
    assert mx'.owners[1..] == mx.owners[1..] + [f];
    forall p: Place, g: FiberId | p != Nowhere ensures Holds(s', p, g) <==> Is(s', g, p) {
      assert Holds(s, p, g) <==> Is(s, g, p);
    }
  }

  lemma LockKeeps(s: State, w: WorkerId, m: MutexId)
    requires Inv(s) && Lock(s, w, m).Some?
    ensures Inv(Lock(s, w, m).value)
  {
    var s' := Lock(s, w, m).value;
    RunningIsNowhere(s, w);
    if s.mutexes[m].owners == [] {
      LockFreePlaces(s, w, m);
    } else {
      LockBusyPlaces(s, w, m);
    }
    ParkFibers(s, s', w);
    EventsFrame(s, s');
  }

  lemma TryLockKeeps(s: State, w: WorkerId, m: MutexId)
    requires Inv(s) && TryLock(s, w, m).Some?
    ensures Inv(TryLock(s, w, m).value)
  {
    var s' := TryLock(s, w, m).value;
    var f, mx := Current(s, w), s.mutexes[m];
    if mx.owners == [] {
      assert (mx.arrivals + [f])[mx.released..] == [f];
      RunningIsNowhere(s, w);
      SamePlaces(s, s');
      ParkFibers(s, s', w);
      EventsFrame(s, s');
    }
  }

  /** Running fiber f wakes fiber g, which stays parked and becomes ready. */
  lemma WakeRest(s: State, s': State, f: FiberId, g: FiberId)
    requires CpuInv(s) && FiberInv(s) && MutexInv(s) && NotifierInv(s) && CountInv(s)
    requires KeepsOthers(s, s', {f, g}) && FiberOk(s', f) && FiberOk(s', g)
    requires f < |s.fibers| && g < |s.fibers| && f != g
    requires !s.fibers[f].pc.Parked? && s'.fibers[f] == s.fibers[f].(pc := s'.fibers[f].pc)
    requires s'.fibers[g] == s.fibers[g].(place := InReady)
    requires s'.workers == s.workers && s'.total == s.total && s'.maxFibers == s.maxFibers
    requires forall n :: 0 <= n < |s.notifiers| ==> s'.notifiers[n].initiator == s.notifiers[n].initiator
    ensures CpuInv(s') && FiberInv(s') && MutexInv(s') && CountInv(s')
  {
    CpuFrame(s, s');
    FibersFrame(s, s', {f, g});
    CountFrame(s, s');
  }

  /** The next owner in line stands in the mutex and is not ready. */
  lemma NextOwner(s: State, m: MutexId)
    requires PlaceInv(s) && DistinctInv(s) && m < |s.mutexes| && |s.mutexes[m].owners| > 1
    ensures var g := s.mutexes[m].owners[1]; Is(s, g, InMutex(m)) && g !in s.ready
    ensures NoDup(s.ready + [s.mutexes[m].owners[1]])
    ensures forall f :: f in s.mutexes[m].owners[2..] <==> f in s.mutexes[m].owners[1..] && f != s.mutexes[m].owners[1]
  {
    var owners := s.mutexes[m].owners;
    assert OwnersOk(s.mutexes[m]);
    var g := owners[1];
    assert g == owners[1..][0] && owners[1..][1..] == owners[2..];
    TailMembers(owners);
    TailMembers(owners[1..]);
    assert Holds(s, InMutex(m), g);
    assert Is(s, g, InMutex(m));
    assert !Holds(s, InReady, g);
    SnocMembers(s.ready, g);
  }

  lemma UnlockDistinct(s: State, w: WorkerId, m: MutexId)
    requires PlaceInv(s) && DistinctInv(s) && Unlock(s, w, m).Some?
    ensures DistinctInv(Unlock(s, w, m).value)
  {
    var mx := s.mutexes[m];
    assert OwnersOk(mx);
    TailMembers(mx.owners);
    assert mx.arrivals[mx.released + 1..] == mx.owners[1..];
    if |mx.owners| > 1 { NextOwner(s, m); }
  }

  lemma UnlockPlaces(s: State, w: WorkerId, m: MutexId)
    requires PlaceInv(s) && DistinctInv(s) && Unlock(s, w, m).Some?
    ensures PlaceInv(Unlock(s, w, m).value) && DistinctInv(Unlock(s, w, m).value)
  {
    UnlockDistinct(s, w, m);
    var s' := Unlock(s, w, m).value;
    var owners := s.mutexes[m].owners;
    if |owners| > 1 {
      NextOwner(s, m);
      assert s'.mutexes[m].owners[1..] == owners[2..];
    }
    forall p: Place, g: FiberId | p != Nowhere ensures Holds(s', p, g) <==> Is(s', g, p) {
      assert Holds(s, p, g) <==> Is(s, g, p);
    }
  }

  lemma UnlockRest(s: State, w: WorkerId, m: MutexId)
    requires Inv(s) && Unlock(s, w, m).Some?
    ensures var s' := Unlock(s, w, m).value; CpuInv(s') && FiberInv(s') && MutexInv(s') && CountInv(s')
  {
    var s' := Unlock(s, w, m).value;
    var f, mx := Current(s, w), s.mutexes[m];
    RunningIsNowhere(s, w);
    if |mx.owners| > 1 {
      var g := mx.owners[1];
      assert g == mx.owners[1..][0];
      assert Holds(s, InMutex(m), g);
      assert Is(s, g, InMutex(m)) && Fits(s, s.fibers[g]) && PcOk(s, s.fibers[g], g);
      WakeRest(s, s', f, g);
    } else {
      ParkFibers(s, s', w);
    }
  }

  lemma UnlockKeeps(s: State, w: WorkerId, m: MutexId)
    requires Inv(s) && Unlock(s, w, m).Some?
    ensures Inv(Unlock(s, w, m).value)
  {
    var s' := Unlock(s, w, m).value;
    UnlockPlaces(s, w, m);
    UnlockRest(s, w, m);
    InitiatorsKnown(s);
    NotifiersFrame(s, s');
    EventsFrame(s, s');
  }

  // ----- event.cpp: wait, reset, set -----

  /** One event changes; the fibers that are setters keep being so. */
  lemma OneEvent(s: State, s': State, e: EventId)
    requires EventInv(s) && |s'.events| == |s.events| && e < |s.events|
    requires forall d :: 0 <= d < |s.events| && d != e ==> s'.events[d] == s.events[d]
    requires forall f, d :: d != e && PcIs(s, f, Setting(d)) ==> PcIs(s', f, Setting(d))
    requires EventOk(s', s'.events[e], e)
    ensures EventInv(s')
  {
    forall d | 0 <= d < |s'.events| ensures EventOk(s', s'.events[d], d) { assert EventOk(s, s.events[d], d); }
  }

  lemma WaitEventPlaces(s: State, w: WorkerId, e: EventId)
    requires PlaceInv(s) && DistinctInv(s) && WaitEvent(s, w, e).Some? && s.fibers[Current(s, w)].place == Nowhere
    ensures PlaceInv(WaitEvent(s, w, e).value) && DistinctInv(WaitEvent(s, w, e).value)
  {
    var s' := WaitEvent(s, w, e).value;
    var f := Current(s, w);
    if s.events[e].isSet {
      SamePlaces(s, s');
    } else {
      SnocMembers(s.events[e].waiters, f);
      assert !Holds(s, InEvent(e), f) by { assert !Is(s, f, InEvent(e)); }
      forall p: Place, g: FiberId | p != Nowhere ensures Holds(s', p, g) <==> Is(s', g, p) {
        assert Holds(s, p, g) <==> Is(s, g, p);
      }
    }
  }

  lemma WaitEventKeeps(s: State, w: WorkerId, e: EventId)
    requires Inv(s) && WaitEvent(s, w, e).Some?
    ensures Inv(WaitEvent(s, w, e).value)
  {
    var s' := WaitEvent(s, w, e).value;
    RunningIsNowhere(s, w);
    WaitEventPlaces(s, w, e);
    ParkFibers(s, s', w);
    assert EventOk(s, s.events[e], e);
    OneEvent(s, s', e);
  }

  /** `reset` clears `_waiters`, and loses nobody. */
  lemma ResetKeeps(s: State, w: WorkerId, e: EventId)
    requires Inv(s) && Reset(s, w, e).Some?
    ensures Inv(Reset(s, w, e).value)
  {
    var s' := Reset(s, w, e).value;
    assert EventOk(s, s.events[e], e);
    if s.events[e].isSet {
      RunningIsNowhere(s, w);
      SamePlaces(s, s');
      ParkFibers(s, s', w);
      OneEvent(s, s', e);
    }
  }

  lemma SetBeginKeeps(s: State, w: WorkerId, e: EventId, all: bool)
    requires Inv(s) && SetBegin(s, w, e, all).Some?
    ensures Inv(SetBegin(s, w, e, all).value)
  {
    var s' := SetBegin(s, w, e, all).value;
    assert EventOk(s, s.events[e], e);
    if !s.events[e].isSet {
      RunningIsNowhere(s, w);
      SamePlaces(s, s');
      ParkFibers(s, s', w);
      OneEvent(s, s', e);
    }
  }

  /** Facts about a fiber inside `set`. */
  lemma SetterFacts(s: State, w: WorkerId)
    requires EventInv(s) && FiberInv(s) && InSet(s, w)
    ensures var e := SetTarget(s, w);
            EventOk(s, s.events[e], e) && s.events[e].setter.value.owner == Current(s, w)
    ensures forall d, f :: PcIs(s, f, Setting(d)) && f == Current(s, w) ==> d == SetTarget(s, w)
    ensures forall d :: 0 <= d < |s.events| && s.events[d].setter.Some? && s.events[d].setter.value.owner == Current(s, w)
                        ==> d == SetTarget(s, w)
  {
    assert PcOk(s, s.fibers[Current(s, w)], Current(s, w));
    forall d | 0 <= d < |s.events| && s.events[d].setter.Some? && s.events[d].setter.value.owner == Current(s, w)
      ensures d == SetTarget(s, w)
    {
      assert EventOk(s, s.events[d], d);
    }
  }

  lemma SetEndKeeps(s: State, w: WorkerId)
    requires Inv(s) && SetEnd(s, w).Some?
    ensures Inv(SetEnd(s, w).value)
  {
    var s' := SetEnd(s, w).value;
    var f, e := Current(s, w), SetTarget(s, w);
    SetterFacts(s, w);
    RunningIsNowhere(s, w);
    SamePlaces(s, s');
    CpuFrame(s, s');
    FibersFrame(s, s', {f});
    InitiatorsKnown(s);
    NotifiersFrame(s, s');
    OneEvent(s, s', e);
    CountFrame(s, s');
  }

  lemma SetClearRest(s: State, w: WorkerId)
    requires Inv(s) && SetClear(s, w).Some?
    ensures var s' := SetClear(s, w).value;
            PlaceInv(s') && DistinctInv(s') && MutexInv(s') && CpuInv(s') && FiberInv(s') && CountInv(s')
  {
    var s' := SetClear(s, w).value;
    var f, e := Current(s, w), SetTarget(s, w);
    SetterFacts(s, w);
    RunningIsNowhere(s, w);
    SamePlaces(s, s');
    CpuFrame(s, s');
    FibersFrame(s, s', if s.events[e].setter.value.done then {f} else {});
    CountFrame(s, s');
  }

  lemma SetClearKeeps(s: State, w: WorkerId)
    requires Inv(s) && SetClear(s, w).Some?
    ensures Inv(SetClear(s, w).value)
  {
    var s' := SetClear(s, w).value;
    SetClearRest(s, w);
    SetterFacts(s, w);
    InitiatorsKnown(s);
    NotifiersFrame(s, s');
    OneEvent(s, s', SetTarget(s, w));
  }

  lemma SetWakePlaces(s: State, w: WorkerId)
    requires PlaceInv(s) && DistinctInv(s) && SetWake(s, w).Some?
    ensures PlaceInv(SetWake(s, w).value) && DistinctInv(SetWake(s, w).value)
  {
    var s' := SetWake(s, w).value;
    var e := SetTarget(s, w);
    var g := s.events[e].waiters[0];
    TailMembers(s.events[e].waiters);
    assert Holds(s, InEvent(e), g);
    assert Is(s, g, InEvent(e));
    assert !Holds(s, InReady, g);
    SnocMembers(s.ready, g);
    forall p: Place, h: FiberId | p != Nowhere ensures Holds(s', p, h) <==> Is(s', h, p) {
      assert Holds(s, p, h) <==> Is(s, h, p);
    }
  }

  lemma SetWakeRest(s: State, w: WorkerId)
    requires PlaceInv(s) && MutexInv(s) && CpuInv(s) && FiberInv(s) && EventInv(s) && NotifierInv(s) && CountInv(s)
    requires SetWake(s, w).Some?
    ensures var s' := SetWake(s, w).value; CpuInv(s') && FiberInv(s') && MutexInv(s') && CountInv(s')
  {
    var s' := SetWake(s, w).value;
    var f, e := Current(s, w), SetTarget(s, w);
    var g := s.events[e].waiters[0];
    SetterFacts(s, w);
    RunningIsNowhere(s, w);
    assert Holds(s, InEvent(e), g);
    assert Is(s, g, InEvent(e)) && Fits(s, s.fibers[g]) && PcOk(s, s.fibers[g], g);
    WakeRest(s, s', f, g);
  }

  lemma SetWakeKeeps(s: State, w: WorkerId)
    requires Inv(s) && SetWake(s, w).Some?
    ensures Inv(SetWake(s, w).value)
  {
    var s' := SetWake(s, w).value;
    SetWakePlaces(s, w);
    SetWakeRest(s, w);
    SetterFacts(s, w);
    InitiatorsKnown(s);
    NotifiersFrame(s, s');
    OneEvent(s, s', SetTarget(s, w));
  }
}
