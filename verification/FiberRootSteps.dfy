/** The steps of root fibers (worker.cpp) keep the invariant. */
module FiberRootSteps {
  import opened Basics
  import opened FiberModel
  import opened FiberInvariant

  predicate InPool(p: Place) {
    p.InIdle? || p.InReady? || p.InIdleHand? || p.InReadyHand?
  }

  /** Only root-local state and places inside the pool differ. */
  ghost predicate Quiet(s: State, s': State) {
    && s'.events == s.events && s'.mutexes == s.mutexes && s'.notifiers == s.notifiers
    && s'.maxFibers == s.maxFibers && s'.total == s.total
    && |s'.fibers| == |s.fibers| && |s'.workers| == |s.workers|
    && (forall w :: 0 <= w < |s.workers| ==> s'.workers[w].cpu == s.workers[w].cpu)
    && (forall f :: 0 <= f < |s.fibers| ==>
          && s'.fibers[f] == s.fibers[f].(place := s'.fibers[f].place)
          && (s'.fibers[f].place == s.fibers[f].place
              || (InPool(s.fibers[f].place) && InPool(s'.fibers[f].place) && Fits(s', s'.fibers[f]))))
  }

  lemma QuietKeepsCpu(s: State, s': State)
    requires Quiet(s, s') && CpuInv(s)
    ensures CpuInv(s')
  {
    forall f | 0 <= f < |s'.fibers| ensures FiberCpu(s', s'.fibers[f], f) { assert FiberCpu(s, s.fibers[f], f); }
  }

  lemma QuietKeepsFibers(s: State, s': State)
    requires Quiet(s, s') && FiberInv(s) && MutexInv(s)
    ensures FiberInv(s') && MutexInv(s')
  {
    forall f | 0 <= f < |s'.fibers| ensures Fits(s', s'.fibers[f]) && PcOk(s', s'.fibers[f], f) && Granted(s', s'.fibers[f], f) {
      assert Fits(s, s.fibers[f]) && PcOk(s, s.fibers[f], f) && Granted(s, s.fibers[f], f);
    }
  }

  lemma QuietKeepsEvents(s: State, s': State)
    requires Quiet(s, s') && EventInv(s)
    ensures EventInv(s')
  {
    forall e | 0 <= e < |s'.events| ensures EventOk(s', s'.events[e], e) { assert EventOk(s, s.events[e], e); }
  }

  lemma QuietKeepsNotifiers(s: State, s': State)
    requires Quiet(s, s') && NotifierInv(s)
    ensures NotifierInv(s')
  {
    forall n | 0 <= n < |s'.notifiers| ensures NotifierOk(s', s'.notifiers[n], n) { assert NotifierOk(s, s.notifiers[n], n); }
    forall e: nat, n: nat | Lists(s', e, n) ensures MayList(s', n, e) { assert Lists(s, e, n); }
    forall n: nat, k: nat | MustList(s', n, k) ensures Lists(s', s'.notifiers[n].events[k], n) {
      assert MustList(s, n, k);
      assert Lists(s, s.notifiers[n].events[k], n);
    }
  }

  lemma QuietKeeps(s: State, s': State)
    requires Quiet(s, s') && Inv(s)
    ensures MutexInv(s') && CpuInv(s') && FiberInv(s') && EventInv(s') && NotifierInv(s')
  {
    QuietKeepsCpu(s, s');
    QuietKeepsFibers(s, s');
    QuietKeepsEvents(s, s');
    QuietKeepsNotifiers(s, s');
  }

  /** No structure changes: only where some root fiber stands. */
  lemma SameHolders(s: State, s': State)
    requires PlaceInv(s) && DistinctInv(s)
    requires s'.fibers == s.fibers && s'.idle == s.idle && s'.ready == s.ready
    requires s'.events == s.events && s'.mutexes == s.mutexes && s'.notifiers == s.notifiers
    requires |s'.workers| == |s.workers|
    requires forall w :: 0 <= w < |s.workers| ==>
               && IdleHands(s'.workers[w].mode) == IdleHands(s.workers[w].mode)
               && ReadyHands(s'.workers[w].mode) == ReadyHands(s.workers[w].mode)
    ensures PlaceInv(s') && DistinctInv(s')
  {
    forall p: Place, f: FiberId | p != Nowhere ensures Holds(s', p, f) <==> Is(s', f, p) {
      assert Holds(s, p, f) <==> Is(s, f, p);
    }
  }

  lemma SameCreators(s: State, s': State)
    requires CountInv(s) && |s'.workers| == |s.workers| && s'.total == s.total && s'.maxFibers == s.maxFibers
    requires |s'.fibers| == |s.fibers|
    requires Creating(s') <= Creating(s)
    ensures CountInv(s')
  {
    SizeOfSubset(Creating(s'), Creating(s));
  }

  // ----- taking and giving back ready fibers -----

  lemma ExecStartKeeps(s: State, w: WorkerId)
    requires Inv(s) && ExecStart(s, w).Some?
    ensures Inv(ExecStart(s, w).value)
  {
    var s' := ExecStart(s, w).value;
    SameHolders(s, s');
    QuietKeeps(s, s');
    SameCreators(s, s');
  }

  lemma PopReadyPlaces(s: State, w: WorkerId)
    requires PlaceInv(s) && DistinctInv(s) && PopReady(s, w).Some?
    ensures PlaceInv(PopReady(s, w).value) && DistinctInv(PopReady(s, w).value)
  {
    var s' := PopReady(s, w).value;
    var f := s.ready[0];
    TailMembers(s.ready);
    SnocMembers(s.workers[w].mode.failed, f);
    assert Holds(s, InReady, f);
    assert Is(s, f, InReady);
    assert !Holds(s, InReadyHand(w), f);
    assert PlaceInv(s') by {
      forall g, q: Place | q != Nowhere ensures Holds(s', q, g) <==> Is(s', g, q) {
        assert Holds(s, q, g) <==> Is(s, g, q);
      }
    }
  }

  lemma PopReadyKeeps(s: State, w: WorkerId)
    requires Inv(s) && PopReady(s, w).Some?
    ensures Inv(PopReady(s, w).value)
  {
    var s' := PopReady(s, w).value;
    PopReadyPlaces(s, w);
    assert Holds(s, InReady, s.ready[0]);
    assert Is(s, s.ready[0], InReady);
    assert Fits(s, s.fibers[s.ready[0]]);
    QuietKeeps(s, s');
    SameCreators(s, s');
  }

  lemma ReadyEmptyKeeps(s: State, w: WorkerId)
    requires Inv(s) && ReadyEmpty(s, w).Some?
    ensures Inv(ReadyEmpty(s, w).value)
  {
    var s' := ReadyEmpty(s, w).value;
    SameHolders(s, s');
    QuietKeeps(s, s');
    SameCreators(s, s');
  }

  lemma JoinMembers<T>(a: seq<T>, b: seq<T>)
    requires NoDup(a) && NoDup(b) && forall x :: x in a ==> x !in b
    ensures NoDup(a + b)
    ensures forall x :: x in a + b <==> x in a || x in b
  {
    forall i, j | 0 <= i < j < |a + b| ensures (a + b)[i] != (a + b)[j] {
      if i < |a| <= j {
        assert a[i] in a && b[j - |a|] in b;
      }
    }
  }

  lemma PutBackReadyPlaces(s: State, w: WorkerId)
    requires PlaceInv(s) && DistinctInv(s) && PutBackReady(s, w).Some?
    ensures PlaceInv(PutBackReady(s, w).value) && DistinctInv(PutBackReady(s, w).value)
  {
    var s' := PutBackReady(s, w).value;
    var fs := s.workers[w].mode.failed;
    forall f | f in fs ensures Is(s, f, InReadyHand(w)) && f !in s.ready {
      assert Holds(s, InReadyHand(w), f);
      assert Holds(s, InReady, f) <==> Is(s, f, InReady);
    }
    JoinMembers(s.ready, fs);
    assert PlaceInv(s') by {
      forall g, q: Place | q != Nowhere ensures Holds(s', q, g) <==> Is(s', g, q) {
        assert Holds(s, q, g) <==> Is(s, g, q);
      }
    }
  }

  lemma PutBackReadyKeeps(s: State, w: WorkerId)
    requires Inv(s) && PutBackReady(s, w).Some?
    ensures Inv(PutBackReady(s, w).value)
  {
    var s' := PutBackReady(s, w).value;
    PutBackReadyPlaces(s, w);
    forall f | f in s.workers[w].mode.failed ensures Is(s, f, InReadyHand(w)) && Fits(s, s.fibers[f]) {
      assert Holds(s, InReadyHand(w), f);
      assert Is(s, f, InReadyHand(w));
    }
    QuietKeeps(s, s');
    SameCreators(s, s');
  }

  lemma EnterReadyLockedKeeps(s: State, w: WorkerId)
    requires Inv(s) && EnterReady(s, w).Some? && s.fibers[s.workers[w].mode.f].locked
    ensures Inv(EnterReady(s, w).value)
  {
    var s' := EnterReady(s, w).value;
    SameHolders(s, s');
    QuietKeeps(s, s');
    SameCreators(s, s');
  }

  // ----- tasks and idle fibers -----

  lemma PopTaskKeeps(s: State, w: WorkerId)
    requires Inv(s) && PopTask(s, w).Some?
    ensures Inv(PopTask(s, w).value)
  {
    var s' := PopTask(s, w).value;
    SameHolders(s, s');
    QuietKeeps(s, s');
    SameCreators(s, s');
  }

  lemma PopIdlePlaces(s: State, w: WorkerId, f: FiberId)
    requires PlaceInv(s) && DistinctInv(s) && PopIdle(s, w, f).Some?
    ensures PlaceInv(PopIdle(s, w, f).value) && DistinctInv(PopIdle(s, w, f).value)
  {
    var s' := PopIdle(s, w, f).value;
    SnocMembers(s.workers[w].mode.failed, f);
    assert Holds(s, InIdle, f);
    assert Is(s, f, InIdle);
    assert !Holds(s, InIdleHand(w), f);
    assert PlaceInv(s') by {
      forall g, q: Place | q != Nowhere ensures Holds(s', q, g) <==> Is(s', g, q) {
        assert Holds(s, q, g) <==> Is(s, g, q);
      }
    }
  }

  lemma PopIdleKeeps(s: State, w: WorkerId, f: FiberId)
    requires Inv(s) && PopIdle(s, w, f).Some?
    ensures Inv(PopIdle(s, w, f).value)
  {
    var s' := PopIdle(s, w, f).value;
    PopIdlePlaces(s, w, f);
    assert Holds(s, InIdle, f);
    assert Is(s, f, InIdle);
    assert Fits(s, s.fibers[f]);
    QuietKeeps(s, s');
    SameCreators(s, s');
  }

  /** A worker that read a total below the limit may create; at most the other workers may do so too. */
  lemma IdleEmptyKeeps(s: State, w: WorkerId)
    requires Inv(s) && IdleEmpty(s, w).Some?
    ensures Inv(IdleEmpty(s, w).value)
  {
    var s' := IdleEmpty(s, w).value;
    SameHolders(s, s');
    QuietKeeps(s, s');
    if s.total < s.maxFibers {
      SizeOfSubset(Creating(s'), Range(|s.workers|));
    } else {
      SameCreators(s, s');
    }
  }

  ghost function Range(n: nat): (r: set<nat>)
    ensures |r| == n && forall v: nat :: v in r <==> v < n
  {
    if n == 0 then {} else Range(n - 1) + {n - 1}
  }

  lemma CreateFailedKeeps(s: State, w: WorkerId)
    requires Inv(s) && CreateFiber(s, w, false).Some?
    ensures Inv(CreateFiber(s, w, false).value)
  {
    var s' := CreateFiber(s, w, false).value;
    SameHolders(s, s');
    QuietKeeps(s, s');
    SameCreators(s, s');
  }

  lemma EnterIdleLockedKeeps(s: State, w: WorkerId)
    requires Inv(s) && EnterIdle(s, w).Some? && s.fibers[s.workers[w].mode.f].locked
    ensures Inv(EnterIdle(s, w).value)
  {
    var s' := EnterIdle(s, w).value;
    SameHolders(s, s');
    QuietKeeps(s, s');
    SameCreators(s, s');
  }

  lemma QueueTaskKeeps(s: State, w: WorkerId)
    requires Inv(s) && QueueTask(s, w).Some?
    ensures Inv(QueueTask(s, w).value)
  {
    var s' := QueueTask(s, w).value;
    SameHolders(s, s');
    QuietKeeps(s, s');
    SameCreators(s, s');
  }

  lemma PutBackIdlePlaces(s: State, w: WorkerId)
    requires PlaceInv(s) && DistinctInv(s) && PutBackIdle(s, w).Some?
    ensures PlaceInv(PutBackIdle(s, w).value) && DistinctInv(PutBackIdle(s, w).value)
  {
    var s' := PutBackIdle(s, w).value;
    var fs := s.workers[w].mode.failed;
    forall f | f in fs ensures Is(s, f, InIdleHand(w)) {
      assert Holds(s, InIdleHand(w), f);
    }
    assert PlaceInv(s') by {
      forall g, q: Place | q != Nowhere ensures Holds(s', q, g) <==> Is(s', g, q) {
        assert Holds(s, q, g) <==> Is(s, g, q);
      }
    }
  }

  lemma PutBackIdleKeeps(s: State, w: WorkerId)
    requires Inv(s) && PutBackIdle(s, w).Some?
    ensures Inv(PutBackIdle(s, w).value)
  {
    var s' := PutBackIdle(s, w).value;
    PutBackIdlePlaces(s, w);
    forall f | f in s.workers[w].mode.failed ensures Is(s, f, InIdleHand(w)) && Fits(s, s.fibers[f]) {
      assert Holds(s, InIdleHand(w), f);
      assert Is(s, f, InIdleHand(w));
    }
    QuietKeeps(s, s');
    SameCreators(s, s');
  }
}
