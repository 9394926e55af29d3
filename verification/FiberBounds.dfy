/** How many fibers there can be, and how many can wait on one event. */
module FiberBounds {
  import opened Basics
  import opened FiberModel
  import opened FiberInvariant
  import opened FiberSafety

  ghost predicate Reachable(s: State) {
    exists ss: seq<State>, steps: seq<Step> :: IsRun(ss, steps) && ss[|steps|] == s
  }

  lemma ReachNext(s: State, st: Step, s': State)
    requires Reachable(s) && Next(s, st) == Some(s')
    ensures Reachable(s')
  {
    var ss, steps :| IsRun(ss, steps) && ss[|steps|] == s;
    assert IsRun(ss + [s'], steps + [st]) && (ss + [s'])[|steps + [st]|] == s';
  }

  lemma ReachInv(s: State)
    requires Reachable(s)
    ensures Inv(s)
  {
    var ss, steps :| IsRun(ss, steps) && ss[|steps|] == s;
    RunInv(ss, steps, |steps|);
  }

  /** A reachable state of a pool with W workers and a limit of M fibers. */
  ghost predicate PoolState(s: State, M: nat, W: nat) {
    Reachable(s) && s.maxFibers == M && |s.workers| == W
  }

  // ----- a run that fills the pool -----

  const HOME: Worker := Worker(Outside, Root)
  const CREATOR: Worker := Worker(Create([], false), Root)

  /** A new pool with E auto-reset events. */
  function Fresh(M: nat, W: nat, E: nat): State {
    State(M, seq(W, _ => HOME), [], 0, {}, [], 0, seq(E, _ => Event(true, false, [], [], [], None, 0, 0, 0)), [], [])
  }

  lemma FreshIsReachable(M: nat, W: nat, E: nat)
    requires W > 0
    ensures Reachable(Fresh(M, W, E))
  {
    var none: seq<Step> := [];
    assert IsRun([Fresh(M, W, E)], none);
  }

  /** There are n fibers, none of them idle or ready, and no task. */
  predicate Quiet(s: State, n: nat) {
    s.total == |s.fibers| == n && s.idle == {} && s.ready == [] && s.tasks == 0
  }

  /** There are n fibers; k of them wait on the one event, which nobody sets. */
  predicate Crowd(s: State, n: nat, k: nat) {
    Quiet(s, n) && |s.events| == 1 && !s.events[0].isSet && s.events[0].setter.None? && |s.events[0].waiters| == k
  }

  /** A worker comes to the place where it is about to create a fiber. */
  lemma ToCreate(s: State, w: WorkerId, n: nat)
    requires Reachable(s) && Quiet(s, n) && n < s.maxFibers
    requires w < |s.workers| && s.workers[w] == HOME
    ensures Reachable(s.(workers := s.workers[w := CREATOR]))
  {
    var s1 := SetMode(s, w, ReadyPass(First, []));
    ReachNext(s, Step(w, OpExecStart), s1);
    var s2 := SetMode(s1, w, TakeTask([]));
    ReachNext(s1, Step(w, OpReadyEmpty), s2);
    var s3 := SetMode(s2, w, TakeIdle([], false));
    ReachNext(s2, Step(w, OpPopTask), s3);
    var s4 := SetMode(s3, w, Create([], false));
    ReachNext(s3, Step(w, OpIdleEmpty), s4);
    assert s4.workers == s.workers[w := CREATOR];
  }

  /** The fiber that was about to be created runs and is in user code. */
  lemma Born(s: State, w: WorkerId, n: nat) returns (s': State)
    requires Reachable(s) && Quiet(s, n) && w < |s.workers| && s.workers[w] == CREATOR
    ensures Reachable(s') && Quiet(s', n + 1) && s'.maxFibers == s.maxFibers
    ensures s'.events == s.events && s'.notifiers == s.notifiers && s'.fibers[..n] == s.fibers
    ensures s'.workers == s.workers[w := Worker(PutIdle([]), Runs(n))] && InUser(s', w)
  {
    var s1 := CreateFiber(s, w, true).value;
    ReachNext(s, Step(w, OpCreateFiber(true)), s1);
    s' := EnterIdle(s1, w).value;
    ReachNext(s1, Step(w, OpEnterIdle), s');
    assert s'.workers == s.workers[w := Worker(PutIdle([]), Runs(n))];
  }

  lemma WaitInLine(s: State, w: WorkerId, n: nat, k: nat) returns (s': State)
    requires Reachable(s) && Crowd(s, n, k) && InUser(s, w)
    ensures Reachable(s') && Crowd(s', n, k + 1) && s'.maxFibers == s.maxFibers && s'.workers == s.workers
    ensures s'.fibers[Current(s, w)].pc.Parked?
  {
    s' := WaitEvent(s, w, 0).value;
    ReachNext(s, Step(w, OpWait(0)), s');
  }

  lemma SwitchHome(s: State, w: WorkerId, n: nat, k: nat) returns (s': State)
    requires Reachable(s) && Crowd(s, n, k) && Running(s, w) && s.fibers[Current(s, w)].pc.Parked?
    ensures Reachable(s') && Crowd(s', n, k) && s'.maxFibers == s.maxFibers
    ensures s'.workers == s.workers[w := Worker(s.workers[w].mode, Root)]
  {
    var s1 := SwitchOut(s, w).value;
    ReachNext(s, Step(w, OpSwitchOut), s1);
    s' := LeaveFiber(s1, w).value;
    ReachNext(s1, Step(w, OpLeaveFiber), s');
  }

  lemma FinishPass(s: State, w: WorkerId, n: nat, k: nat) returns (s': State)
    requires Reachable(s) && Crowd(s, n, k) && w < |s.workers| && s.workers[w] == Worker(PutIdle([]), Root)
    ensures Reachable(s') && Crowd(s', n, k) && s'.maxFibers == s.maxFibers && s'.workers == s.workers[w := HOME]
  {
    var s1 := PutBackIdle(s, w).value;
    ReachNext(s, Step(w, OpPutBackIdle), s1);
    assert s1.idle == {};
    s' := ReadyEmpty(s1, w).value;
    ReachNext(s1, Step(w, OpReadyEmpty), s');
  }

  /** The worker whose fiber has parked is outside again. */
  lemma GoHome(s: State, w: WorkerId, n: nat, k: nat) returns (s': State)
    requires Reachable(s) && Crowd(s, n, k) && Running(s, w) && s.workers[w].mode == PutIdle([])
    requires s.fibers[Current(s, w)].pc.Parked?
    ensures Reachable(s') && Crowd(s', n, k) && s'.maxFibers == s.maxFibers && s'.workers == s.workers[w := HOME]
  {
    var s1 := SwitchHome(s, w, n, k);
    s' := FinishPass(s1, w, n, k);
  }

  predicate AllHome(s: State, W: nat) {
    |s.workers| == W && forall w :: 0 <= w < W ==> s.workers[w] == HOME
  }

  /** The first worker has created n fibers, one after another, and all of them wait on the event. */
  lemma {:induction false} GatherFibers(M: nat, W: nat, n: nat) returns (s: State)
    requires W > 0 && n < M
    ensures PoolState(s, M, W) && Crowd(s, n, n) && AllHome(s, W)
  {
    if n == 0 {
      s := Fresh(M, W, 1);
      FreshIsReachable(M, W, 1);
    } else {
      var s0 := GatherFibers(M, W, n - 1);
      ToCreate(s0, 0, n - 1);
      var s1 := Born(s0.(workers := s0.workers[0 := CREATOR]), 0, n - 1);
      var s2 := WaitInLine(s1, 0, n, n - 1);
      s := GoHome(s2, 0, n, n);
    }
  }

  /** From the i-th worker on all are about to create a fiber. */
  predicate Creators(s: State, W: nat, i: nat) {
    |s.workers| == W && forall w :: i <= w < W ==> s.workers[w] == CREATOR
  }

  /** All workers have found that there is room for one more fiber, before any of them has created it. */
  lemma {:induction false} GatherCreators(M: nat, W: nat, i: nat) returns (s: State)
    requires W > 0 && M > 0 && i <= W
    ensures PoolState(s, M, W) && Crowd(s, M - 1, M - 1) && Creators(s, W, i)
    ensures forall w :: 0 <= w < i ==> s.workers[w] == HOME
    decreases W - i
  {
    if i == W {
      s := GatherFibers(M, W, M - 1);
    } else {
      var s0 := GatherCreators(M, W, i + 1);
      ToCreate(s0, i, M - 1);
      s := s0.(workers := s0.workers[i := CREATOR]);
    }
  }

  /** The first i of them have created theirs, which wait as well. */
  lemma {:induction false} Overfill(M: nat, W: nat, i: nat) returns (s: State)
    requires W > 0 && M > 0 && i < W
    ensures PoolState(s, M, W) && Crowd(s, M - 1 + i, M - 1 + i) && Creators(s, W, i)
  {
    if i == 0 {
      s := GatherCreators(M, W, 0);
    } else {
      var s0 := Overfill(M, W, i - 1);
      var s1 := Born(s0, i - 1, M - 2 + i);
      s := WaitInLine(s1, i - 1, M - 1 + i, M - 2 + i);
    }
  }

  /** The last fiber is in user code, all the others wait on one event. */
  lemma FullHouse(M: nat, W: nat) returns (s: State)
    requires W > 0 && M > 0
    ensures PoolState(s, M, W) && s.total == M + W - 1
    ensures Crowd(s, M + W - 1, M + W - 2) && InUser(s, W - 1)
  {
    var s0 := Overfill(M, W, W - 1);
    s := Born(s0, W - 1, M + W - 2);
  }

  // ----- a pool without fibers -----

  predicate Deserted(s: State) {
    s.maxFibers == 0 && s.fibers == [] && s.total == 0 && forall w :: 0 <= w < |s.workers| ==> !s.workers[w].mode.Create?
  }

  lemma DesertedRootStep(s: State, st: Step)
    requires Deserted(s) && IsRootOp(st.op) && Next(s, st).Some?
    ensures Deserted(Next(s, st).value)
  {
  }

  lemma DesertedStep(s: State, st: Step)
    requires Deserted(s) && Next(s, st).Some?
    ensures Deserted(Next(s, st).value)
  {
    OnlyRootSteps(s, st);
    DesertedRootStep(s, st);
  }

  lemma OnlyRootSteps(s: State, st: Step)
    requires s.fibers == [] && Next(s, st).Some?
    ensures IsRootOp(st.op)
  {
  }

  lemma {:induction false} DesertedRun(ss: seq<State>, steps: seq<Step>, k: nat)
    requires IsRun(ss, steps) && k < |ss| && ss[k].maxFibers == 0
    ensures Deserted(ss[k])
  {
    if k > 0 {
      assert Next(ss[k - 1], steps[k - 1]) == Some(ss[k - 1 + 1]);
      LimitStays(ss[k - 1], steps[k - 1]);
      DesertedRun(ss, steps, k - 1);
      DesertedStep(ss[k - 1], steps[k - 1]);
    }
  }

  lemma LimitStays(s: State, st: Step)
    requires Next(s, st).Some?
    ensures Next(s, st).value.maxFibers == s.maxFibers
  {
  }

  // ----- the limit -----

  /** How many fibers a pool can come to. */
  function MostFibers(M: nat, W: nat): int {
    if M == 0 then 0 else M + W - 1
  }

  lemma AtMostFibers(s: State, M: nat, W: nat)
    requires PoolState(s, M, W)
    ensures s.total == |s.fibers| <= MostFibers(M, W)
  {
    ReachInv(s);
    if M == 0 {
      var ss, steps :| IsRun(ss, steps) && ss[|steps|] == s;
      DesertedRun(ss, steps, |steps|);
    }
  }

  /** Whatever the limit and the number of workers, `MostFibers` is the least bound. */
  lemma FiberLimitIsReached(M: nat, W: nat)
    requires W > 0
    ensures forall s :: PoolState(s, M, W) ==> s.total <= MostFibers(M, W)
    ensures exists s :: PoolState(s, M, W) && s.total == MostFibers(M, W)
  {
    forall s | PoolState(s, M, W) ensures s.total <= MostFibers(M, W) { AtMostFibers(s, M, W); }
    if M == 0 {
      FreshIsReachable(M, W, 0);
      assert PoolState(Fresh(M, W, 0), M, W);
    } else {
      var s := FullHouse(M, W);
    }
  }

  /** Every run respects the limit exactly when there is one worker, or when no fiber is allowed. */
  lemma LimitIsRespectedIff(M: nat, W: nat)
    requires W > 0
    ensures (forall s :: PoolState(s, M, W) ==> s.total <= M) <==> W == 1 || M == 0
  {
    FiberLimitIsReached(M, W);
    if M > 0 && W > 1 {
      var s := FullHouse(M, W);
      assert PoolState(s, M, W) && s.total > M;
    }
  }

  // ----- the limit on the waiters of an event -----

  /** The waiters of an event and a running fiber are different fibers. */
  lemma WaitersAreOthers(s: State, w: WorkerId, e: EventId)
    requires Inv(s) && InUser(s, w) && e < |s.events|
    ensures |s.events[e].waiters| + 1 <= |s.fibers|
  {
    var q, f := s.events[e].waiters, Current(s, w);
    assert NoDup(q);
    forall g | g in q ensures g < |s.fibers| && g != f {
      assert Holds(s, InEvent(e), g);
      assert Is(s, g, InEvent(e)) && Fits(s, s.fibers[g]);
    }
    SnocMembers(q, f);
    DistinctBelow(q + [f], |s.fibers|);
  }

  lemma NotCrowded(s: State, st: Step, M: nat, W: nat)
    requires PoolState(s, M, W) && MostFibers(M, W) <= 200 && Next(s, st).Some?
    ensures SourceAsserts(s, st)
  {
    AtMostFibers(s, M, W);
    ReachInv(s);
    AssertionsHold(s, st);
    if st.op.OpWait? { WaitersAreOthers(s, st.w, st.op.e); }
  }

  /** All assertions of the source hold in all runs exactly when the pool cannot come to more than 200 fibers. */
  lemma AssertionsHoldIff(M: nat, W: nat)
    requires W > 0
    ensures (forall s, st :: PoolState(s, M, W) && Next(s, st).Some? ==> SourceAsserts(s, st)) <==> MostFibers(M, W) <= 200
  {
    if MostFibers(M, W) <= 200 {
      forall s, st | PoolState(s, M, W) && Next(s, st).Some? ensures SourceAsserts(s, st) { NotCrowded(s, st, M, W); }
    } else {
      var s := FullHouse(M, W);
      var st := Step(W - 1, OpWait(0));
      assert Next(s, st).Some? && !SourceAsserts(s, st);
    }
  }
}
