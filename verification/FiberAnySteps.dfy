/** The steps of `waitAny`, and of `set` towards its notifiers, keep the invariant. */
module FiberAnySteps {
  import opened Basics
  import opened FiberModel
  import opened FiberInvariant
  import opened FiberUserSteps
  import opened FiberSyncSteps

  // ----- set meets a notifier -----

  /** The first notifier of an event in `set`, and its initiator when it has not fired. */
  lemma HeadFacts(s: State, w: WorkerId)
    requires Inv(s) && SetNotify(s, w).Some?
    ensures var e := SetTarget(s, w); var n := s.events[e].anyWaiters[0]; var nt := s.notifiers[n];
            && Lists(s, e, n) && MayList(s, n, e) && NotifierOk(s, nt, n) && nt.initiator != Current(s, w)
            && (nt.key.None? ==> PcIs(s, nt.initiator, Parked(OnAny(n))) && Is(s, nt.initiator, InNotifier(n))
                                 && PcOk(s, s.fibers[nt.initiator], nt.initiator))
  {
    var e := SetTarget(s, w);
    var n := s.events[e].anyWaiters[0];
    assert Lists(s, e, n);
    assert NotifierOk(s, s.notifiers[n], n);
    assert PcOk(s, s.fibers[s.notifiers[n].initiator], s.notifiers[n].initiator);
  }

  lemma NotifyDeadRest(s: State, w: WorkerId)
    requires Inv(s) && SetNotify(s, w).Some?
    requires s.notifiers[s.events[SetTarget(s, w)].anyWaiters[0]].key.Some?
    ensures var s' := SetNotify(s, w).value;
            PlaceInv(s') && DistinctInv(s') && MutexInv(s') && CpuInv(s') && FiberInv(s') && CountInv(s')
  {
    var s' := SetNotify(s, w).value;
    SetterFacts(s, w);
    SamePlaces(s, s');
    CpuFrame(s, s');
    FibersFrame(s, s', {});
    CountFrame(s, s');
  }

  lemma NotifyDeadEvents(s: State, w: WorkerId)
    requires FiberInv(s) && EventInv(s) && SetNotify(s, w).Some?
    requires s.notifiers[s.events[SetTarget(s, w)].anyWaiters[0]].key.Some?
    ensures EventInv(SetNotify(s, w).value)
  {
    SetterFacts(s, w);
    OneEvent(s, SetNotify(s, w).value, SetTarget(s, w));
  }

  lemma NotifyDeadNotifiers(s: State, w: WorkerId)
    requires NotifierInv(s) && FiberInv(s) && SetNotify(s, w).Some?
    requires s.notifiers[s.events[SetTarget(s, w)].anyWaiters[0]].key.Some?
    ensures NotifierInv(SetNotify(s, w).value)
  {
    var s' := SetNotify(s, w).value;
    TailMembers(s.events[SetTarget(s, w)].anyWaiters);
    forall n | 0 <= n < |s'.notifiers| ensures NotifierOk(s', s'.notifiers[n], n) { assert NotifierOk(s, s.notifiers[n], n); }
    forall d: nat, n: nat | Lists(s', d, n) ensures MayList(s', n, d) {
      assert Lists(s, d, n);
      assert MayList(s, n, d);
    }
    forall n: nat, k: nat | MustList(s', n, k) ensures Lists(s', s'.notifiers[n].events[k], n) {
      assert MustList(s, n, k);
      assert Lists(s, s.notifiers[n].events[k], n);
      assert PcOk(s, s.fibers[s.notifiers[n].initiator], s.notifiers[n].initiator);
    }
  }

  lemma NotifyLivePlaces(s: State, w: WorkerId)
    requires Inv(s) && SetNotify(s, w).Some?
    requires s.notifiers[s.events[SetTarget(s, w)].anyWaiters[0]].key.None?
    ensures PlaceInv(SetNotify(s, w).value) && DistinctInv(SetNotify(s, w).value)
  {
    var s' := SetNotify(s, w).value;
    var n := s.events[SetTarget(s, w)].anyWaiters[0];
    var g := s.notifiers[n].initiator;
    HeadFacts(s, w);
    assert !Holds(s, InReady, g) by { assert !Is(s, g, InReady); }
    SnocMembers(s.ready, g);
    forall p: Place, h: FiberId | p != Nowhere ensures Holds(s', p, h) <==> Is(s', h, p) {
      assert Holds(s, p, h) <==> Is(s, h, p);
    }
  }

  lemma NotifyLiveNotifiers(s: State, w: WorkerId)
    requires NotifierInv(s) && SetNotify(s, w).Some?
    requires s.notifiers[s.events[SetTarget(s, w)].anyWaiters[0]].key.None?
    requires var n := s.events[SetTarget(s, w)].anyWaiters[0]; PcIs(s, s.notifiers[n].initiator, Parked(OnAny(n)))
    ensures NotifierInv(SetNotify(s, w).value)
  {
    var s' := SetNotify(s, w).value;
    var e := SetTarget(s, w);
    assert Lists(s, e, s.events[e].anyWaiters[0]);
    TailMembers(s.events[e].anyWaiters);
    forall n | 0 <= n < |s'.notifiers| ensures NotifierOk(s', s'.notifiers[n], n) { assert NotifierOk(s, s.notifiers[n], n); }
    forall d: nat, n: nat | Lists(s', d, n) ensures MayList(s', n, d) {
      assert Lists(s, d, n);
      assert MayList(s, n, d);
    }
    forall n: nat, k: nat | MustList(s', n, k) ensures Lists(s', s'.notifiers[n].events[k], n) {
      assert MustList(s, n, k);
      assert Lists(s, s.notifiers[n].events[k], n);
    }
  }

  lemma NotifyLiveRest(s: State, w: WorkerId)
    requires Inv(s) && SetNotify(s, w).Some?
    requires s.notifiers[s.events[SetTarget(s, w)].anyWaiters[0]].key.None?
    ensures var s' := SetNotify(s, w).value;
            CpuInv(s') && FiberInv(s') && MutexInv(s') && CountInv(s') && EventInv(s')
  {
    var s' := SetNotify(s, w).value;
    var f, e := Current(s, w), SetTarget(s, w);
    var n := s.events[e].anyWaiters[0];
    var g := s.notifiers[n].initiator;
    HeadFacts(s, w);
    SetterFacts(s, w);
    RunningIsNowhere(s, w);
    WakeRest(s, s', f, g);
    OneEvent(s, s', e);
  }

  lemma SetNotifyKeeps(s: State, w: WorkerId)
    requires Inv(s) && SetNotify(s, w).Some?
    ensures Inv(SetNotify(s, w).value)
  {
    if s.notifiers[s.events[SetTarget(s, w)].anyWaiters[0]].key.Some? {
      NotifyDeadRest(s, w);
      NotifyDeadEvents(s, w);
      NotifyDeadNotifiers(s, w);
    } else {
      NotifyLivePlaces(s, w);
      HeadFacts(s, w);
      NotifyLiveNotifiers(s, w);
      NotifyLiveRest(s, w);
    }
  }

  // ----- waitAny -----

  lemma AnyBeginNotifiers(s: State, w: WorkerId, es: seq<EventId>)
    requires NotifierInv(s) && AnyBegin(s, w, es).Some?
    ensures NotifierInv(AnyBegin(s, w, es).value)
  {
    var s' := AnyBegin(s, w, es).value;
    forall n | 0 <= n < |s'.notifiers| ensures NotifierOk(s', s'.notifiers[n], n) {
      if n < |s.notifiers| { assert NotifierOk(s, s.notifiers[n], n); }
    }
    forall d: nat, n: nat | Lists(s', d, n) ensures MayList(s', n, d) {
      assert Lists(s, d, n);
      assert MayList(s, n, d);
    }
    forall n: nat, k: nat | MustList(s', n, k) ensures Lists(s', s'.notifiers[n].events[k], n) {
      assert MustList(s, n, k);
      assert Lists(s, s.notifiers[n].events[k], n);
    }
  }

  lemma AnyBeginKeeps(s: State, w: WorkerId, es: seq<EventId>)
    requires Inv(s) && AnyBegin(s, w, es).Some?
    ensures Inv(AnyBegin(s, w, es).value)
  {
    var s' := AnyBegin(s, w, es).value;
    var f := Current(s, w);
    RunningIsNowhere(s, w);
    SamePlaces(s, s');
    CpuFrame(s, s');
    FibersFrame(s, s', {f});
    EventsFrame(s, s');
    CountFrame(s, s');
    AnyBeginNotifiers(s, w, es);
  }

  /** The registering fiber changes its pc and its own notifier n; lists change only for n at event e. */
  lemma OwnNotifier(s: State, s': State, f: FiberId, n: NotifierId)
    requires NotifierInv(s) && f < |s.fibers| && n < |s.notifiers| && s.notifiers[n].initiator == f
    requires Mentions(s.fibers[f].pc, n)
    requires |s'.fibers| == |s.fibers| && |s'.notifiers| == |s.notifiers| && |s'.events| == |s.events|
    requires forall g :: 0 <= g < |s.fibers| && g != f ==> s'.fibers[g].pc == s.fibers[g].pc
    requires forall q :: 0 <= q < |s.notifiers| && q != n ==> s'.notifiers[q] == s.notifiers[q]
    requires forall m: nat :: m != n ==> !Mentions(s'.fibers[f].pc, m)
    requires NotifierOk(s', s'.notifiers[n], n)
    requires forall e :: 0 <= e < |s.events| ==> NoDup(s'.events[e].anyWaiters)
    requires forall e: nat, m: nat :: m != n ==> (Lists(s', e, m) <==> Lists(s, e, m))
    requires forall e: nat :: Lists(s', e, n) ==> MayList(s', n, e)
    requires forall k: nat :: MustList(s', n, k) ==> Lists(s', s'.notifiers[n].events[k], n)
    ensures NotifierInv(s')
  {
    forall m | 0 <= m < |s'.notifiers| ensures NotifierOk(s', s'.notifiers[m], m) {
      if m != n {
        assert NotifierOk(s, s.notifiers[m], m);
        assert SamePcFor(s, s', s.notifiers[m].initiator, m);
      }
    }
    forall d: nat, m: nat | Lists(s', d, m) ensures MayList(s', m, d) {
      if m != n {
        assert Lists(s, d, m);
        assert MayList(s, m, d);
      }
    }
    forall m: nat, k: nat | MustList(s', m, k) ensures Lists(s', s'.notifiers[m].events[k], m) {
      if m != n {
        assert SamePcFor(s, s', s.notifiers[m].initiator, m);
        assert MustList(s, m, k);
        assert Lists(s, s.notifiers[m].events[k], m);
      }
    }
  }

  predicate InRegister(s: State, w: WorkerId) {
    Running(s, w) && s.fibers[Current(s, w)].pc.Registering? && s.fibers[Current(s, w)].pc.n < |s.notifiers|
  }

  /** The event was set: the answer is ready at once. */
  predicate FoundSet(s: State, w: WorkerId) {
    InRegister(s, w)
    && var pc := s.fibers[Current(s, w)].pc;
    pc.i < |s.notifiers[pc.n].events|
    && s.notifiers[pc.n].events[pc.i] < |s.events| && s.events[s.notifiers[pc.n].events[pc.i]].isSet
  }

  predicate AllRegistered(s: State, w: WorkerId) {
    InRegister(s, w) && s.fibers[Current(s, w)].pc.i >= |s.notifiers[s.fibers[Current(s, w)].pc.n].events|
  }

  lemma RegisterFacts(s: State, w: WorkerId)
    requires FiberInv(s) && NotifierInv(s) && InRegister(s, w)
    ensures var f := Current(s, w); var n := s.fibers[f].pc.n;
            && PcOk(s, s.fibers[f], f) && NotifierOk(s, s.notifiers[n], n) && s.notifiers[n].initiator == f
            && s.notifiers[n].key.None?
            && (forall e: nat :: Lists(s, e, n) ==> MayList(s, n, e))
            && (forall k: nat :: MustList(s, n, k) ==> Lists(s, s.notifiers[n].events[k], n))
  {
    var f := Current(s, w);
    var n := s.fibers[f].pc.n;
    assert PcOk(s, s.fibers[f], f) && NotifierOk(s, s.notifiers[n], n);
  }

  lemma FoundSetRest(s: State, w: WorkerId)
    requires Inv(s) && AnyRegister(s, w).Some? && FoundSet(s, w)
    ensures var s' := AnyRegister(s, w).value;
            PlaceInv(s') && DistinctInv(s') && MutexInv(s') && CpuInv(s') && FiberInv(s') && CountInv(s')
  {
    var s' := AnyRegister(s, w).value;
    var f := Current(s, w);
    var n, i := s.fibers[f].pc.n, s.fibers[f].pc.i;
    var e := s.notifiers[n].events[i];
    RegisterFacts(s, w);
    RunningIsNowhere(s, w);
    assert EventOk(s, s.events[e], e);
    SamePlaces(s, s');
    CpuFrame(s, s');
    FibersFrame(s, s', {f});
    CountFrame(s, s');
  }

  lemma FoundSetEvents(s: State, w: WorkerId)
    requires FiberInv(s) && EventInv(s) && AnyRegister(s, w).Some? && FoundSet(s, w)
    ensures EventInv(AnyRegister(s, w).value)
  {
    var pc := s.fibers[Current(s, w)].pc;
    var e := s.notifiers[pc.n].events[pc.i];
    assert EventOk(s, s.events[e], e);
    OneEvent(s, AnyRegister(s, w).value, e);
  }

  lemma FoundSetNotifiers(s: State, w: WorkerId)
    requires FiberInv(s) && NotifierInv(s) && AnyRegister(s, w).Some? && FoundSet(s, w)
    ensures NotifierInv(AnyRegister(s, w).value)
  {
    var s' := AnyRegister(s, w).value;
    var f := Current(s, w);
    var n, i := s.fibers[f].pc.n, s.fibers[f].pc.i;
    RegisterFacts(s, w);
    forall e: nat | Lists(s', e, n) ensures MayList(s', n, e) {
      assert Lists(s, e, n);
      assert s.notifiers[n].events[0..i] == s.notifiers[n].events[..i];
    }
    OwnNotifier(s, s', f, n);
  }

  lemma RegisteredKeeps(s: State, w: WorkerId)
    requires Inv(s) && AnyRegister(s, w).Some? && !FoundSet(s, w) && !AllRegistered(s, w)
    ensures Inv(AnyRegister(s, w).value)
  {
    var s' := AnyRegister(s, w).value;
    var f := Current(s, w);
    var n, i := s.fibers[f].pc.n, s.fibers[f].pc.i;
    var e := s.notifiers[n].events[i];
    RegisterFacts(s, w);
    RunningIsNowhere(s, w);
    assert EventOk(s, s.events[e], e);
    RegisteredNotifiers(s, w);
    SamePlaces(s, s');
    CpuFrame(s, s');
    FibersFrame(s, s', {f});
    OneEvent(s, s', e);
    CountFrame(s, s');
  }

  lemma RegisteredNotifiers(s: State, w: WorkerId)
    requires FiberInv(s) && NotifierInv(s) && AnyRegister(s, w).Some? && !FoundSet(s, w) && !AllRegistered(s, w)
    ensures NotifierInv(AnyRegister(s, w).value)
  {
    var s' := AnyRegister(s, w).value;
    var f := Current(s, w);
    var n, i := s.fibers[f].pc.n, s.fibers[f].pc.i;
    var es := s.notifiers[n].events;
    RegisterFacts(s, w);
    SnocMembers(s.events[es[i]].anyWaiters, n);
    assert es[..i + 1] == es[..i] + [es[i]];
    assert es[i] !in es[..i];
    assert !MayList(s, n, es[i]);
    forall e: nat | Lists(s', e, n) ensures MayList(s', n, e) {
      assert e == es[i] || Lists(s, e, n);
    }
    forall k: nat | MustList(s', n, k) ensures Lists(s', s'.notifiers[n].events[k], n) {
      if k < i { assert MustList(s, n, k); }
    }
    OwnNotifier(s, s', f, n);
  }

  lemma AllRegisteredKeeps(s: State, w: WorkerId)
    requires Inv(s) && AnyRegister(s, w).Some? && AllRegistered(s, w)
    ensures Inv(AnyRegister(s, w).value)
  {
    var s' := AnyRegister(s, w).value;
    var f := Current(s, w);
    RegisterFacts(s, w);
    RunningIsNowhere(s, w);
    ArmedNotifiers(s, w);
    ArmedPlaces(s, w);
    CpuFrame(s, s');
    FibersFrame(s, s', {f});
    EventsFrame(s, s');
    CountFrame(s, s');
  }

  lemma ArmedPlaces(s: State, w: WorkerId)
    requires PlaceInv(s) && DistinctInv(s) && FiberInv(s) && NotifierInv(s) && AnyRegister(s, w).Some? && AllRegistered(s, w)
    requires s.fibers[Current(s, w)].place == Nowhere
    ensures PlaceInv(AnyRegister(s, w).value) && DistinctInv(AnyRegister(s, w).value)
  {
    var s' := AnyRegister(s, w).value;
    RegisterFacts(s, w);
    forall p: Place, g: FiberId | p != Nowhere ensures Holds(s', p, g) <==> Is(s', g, p) {
      assert Holds(s, p, g) <==> Is(s, g, p);
    }
  }

  lemma ArmedNotifiers(s: State, w: WorkerId)
    requires FiberInv(s) && NotifierInv(s) && AnyRegister(s, w).Some? && AllRegistered(s, w)
    ensures NotifierInv(AnyRegister(s, w).value)
  {
    var s' := AnyRegister(s, w).value;
    var f := Current(s, w);
    var n, i := s.fibers[f].pc.n, s.fibers[f].pc.i;
    var es := s.notifiers[n].events;
    RegisterFacts(s, w);
    assert es[..i] == es;
    forall e: nat | Lists(s', e, n) ensures MayList(s', n, e) {
      assert Lists(s, e, n);
    }
    forall k: nat | MustList(s', n, k) ensures Lists(s', s'.notifiers[n].events[k], n) {
      assert MustList(s, n, k);
    }
    OwnNotifier(s, s', f, n);
  }

  lemma AnyRegisterKeeps(s: State, w: WorkerId)
    requires Inv(s) && AnyRegister(s, w).Some?
    ensures Inv(AnyRegister(s, w).value)
  {
    if AllRegistered(s, w) {
      AllRegisteredKeeps(s, w);
    } else if FoundSet(s, w) {
      FoundSetRest(s, w);
      FoundSetEvents(s, w);
      FoundSetNotifiers(s, w);
    } else {
      RegisteredKeeps(s, w);
    }
  }

  // ----- cancelling -----

  /** A running fiber cancels, skips, or returns to user code; only event lists and its pc change. */
  lemma CancelFrame(s: State, s': State, w: WorkerId, n: NotifierId)
    requires Inv(s) && Running(s, w) && !s.fibers[Current(s, w)].pc.Parked? && !s.fibers[Current(s, w)].pc.Setting?
    requires s'.workers == s.workers && s'.idle == s.idle && s'.ready == s.ready && s'.mutexes == s.mutexes
    requires s'.notifiers == s.notifiers && s'.total == s.total && s'.maxFibers == s.maxFibers
    requires |s'.fibers| == |s.fibers| && |s'.events| == |s.events|
    requires forall g :: 0 <= g < |s.fibers| && g != Current(s, w) ==> s'.fibers[g] == s.fibers[g]
    requires s'.fibers[Current(s, w)] == s.fibers[Current(s, w)].(pc := s'.fibers[Current(s, w)].pc)
    requires !s'.fibers[Current(s, w)].pc.Parked?
    requires PcOk(s', s'.fibers[Current(s, w)], Current(s, w))
    requires forall e :: 0 <= e < |s.events| ==> s'.events[e] == s.events[e] || s'.events[e] == Cancel(s.events[e], n)
    ensures PlaceInv(s') && DistinctInv(s') && MutexInv(s') && CpuInv(s') && FiberInv(s') && EventInv(s') && CountInv(s')
  {
    RunningIsNowhere(s, w);
    SamePlaces(s, s');
    CpuFrame(s, s');
    FibersFrame(s, s', {Current(s, w)});
    CountFrame(s, s');
    forall e | 0 <= e < |s'.events| ensures EventOk(s', s'.events[e], e) { assert EventOk(s, s.events[e], e); }
  }

  lemma CancelNotifiers(s: State, s': State, f: FiberId, n: NotifierId)
    requires NotifierInv(s) && f < |s.fibers| && n < |s.notifiers| && s.notifiers[n].initiator == f
    requires s.fibers[f].pc.RollingBack? || s.fibers[f].pc.Cancelling?
    requires Mentions(s.fibers[f].pc, n)
    requires |s'.fibers| == |s.fibers| && s'.notifiers == s.notifiers && |s'.events| == |s.events|
    requires forall g :: 0 <= g < |s.fibers| && g != f ==> s'.fibers[g].pc == s.fibers[g].pc
    requires s'.fibers[f].pc.RollingBack? || s'.fibers[f].pc.Cancelling? || s'.fibers[f].pc.User?
    requires forall m :: m != n ==> !Mentions(s'.fibers[f].pc, m)
    requires forall e :: 0 <= e < |s.events| ==> s'.events[e] == s.events[e] || s'.events[e] == Cancel(s.events[e], n)
    requires forall e: nat :: Lists(s', e, n) ==> MayList(s', n, e)
    ensures NotifierInv(s')
  {
    assert NotifierOk(s, s.notifiers[n], n);
    forall e | 0 <= e < |s.events|
      ensures NoDup(s'.events[e].anyWaiters)
      ensures forall m: nat :: m != n ==> (Lists(s', e, m) <==> Lists(s, e, m))
    {
      RemoveFirstMembers(s.events[e].anyWaiters, n);
    }
    OwnNotifier(s, s', f, n);
  }

  lemma AnyRollBackKeeps(s: State, w: WorkerId)
    requires Inv(s) && AnyRollBack(s, w).Some?
    ensures Inv(AnyRollBack(s, w).value)
  {
    var s' := AnyRollBack(s, w).value;
    var f := Current(s, w);
    var n := s.fibers[f].pc.n;
    assert PcOk(s, s.fibers[f], f);
    AnyRollBackLists(s, w);
    CancelNotifiers(s, s', f, n);
    CancelFrame(s, s', w, n);
  }

  lemma AnyRollBackLists(s: State, w: WorkerId)
    requires FiberInv(s) && NotifierInv(s) && AnyRollBack(s, w).Some?
    ensures var s', n := AnyRollBack(s, w).value, s.fibers[Current(s, w)].pc.n;
            forall e: nat :: Lists(s', e, n) ==> MayList(s', n, e)
  {
    var s' := AnyRollBack(s, w).value;
    var f := Current(s, w);
    var n, i, j := s.fibers[f].pc.n, s.fibers[f].pc.i, s.fibers[f].pc.j;
    var es := s.notifiers[n].events;
    assert PcOk(s, s.fibers[f], f) && NotifierOk(s, s.notifiers[n], n);
    forall e: nat | Lists(s', e, n) ensures MayList(s', n, e) {
      if j < i {
        RemoveFirstMembers(s.events[es[j]].anyWaiters, n);
        assert es[j..i] == [es[j]] + es[j + 1..i];
      }
      assert Lists(s, e, n);
      assert MayList(s, n, e);
    }
  }

  lemma AnyCancelKeeps(s: State, w: WorkerId)
    requires Inv(s) && AnyCancel(s, w).Some?
    ensures Inv(AnyCancel(s, w).value)
  {
    var s' := AnyCancel(s, w).value;
    var f := Current(s, w);
    var n := s.fibers[f].pc.n;
    assert PcOk(s, s.fibers[f], f);
    AnyCancelLists(s, w);
    CancelNotifiers(s, s', f, n);
    CancelFrame(s, s', w, n);
  }

  lemma AnyCancelLists(s: State, w: WorkerId)
    requires FiberInv(s) && NotifierInv(s) && AnyCancel(s, w).Some?
    ensures var s', n := AnyCancel(s, w).value, s.fibers[Current(s, w)].pc.n;
            forall e: nat :: Lists(s', e, n) ==> MayList(s', n, e)
  {
    var s' := AnyCancel(s, w).value;
    var f := Current(s, w);
    var n, j := s.fibers[f].pc.n, s.fibers[f].pc.j;
    var es := s.notifiers[n].events;
    assert PcOk(s, s.fibers[f], f) && NotifierOk(s, s.notifiers[n], n);
    forall e: nat | Lists(s', e, n) ensures MayList(s', n, e) {
      if j < |es| {
        RemoveFirstMembers(s.events[es[j]].anyWaiters, n);
        assert es[j..] == [es[j]] + es[j + 1..];
      }
      assert Lists(s, e, n);
      assert MayList(s, n, e);
    }
  }
}
