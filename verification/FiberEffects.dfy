/** What single steps of the fiber runtime, and calls made of several steps, do to events, mutexes and fibers. */
module FiberEffects {
  import opened Basics
  import opened FiberModel
  import opened FiberInvariant
  import opened FiberSyncSteps
  import opened FiberAnySteps
  import opened FiberSafety
  import opened FiberHistory

  // ----- what a step leaves alone -----

  /** The event that a step of a running fiber is about. */
  function Subject(s: State, st: Step): Option<EventId> {
    match st.op
    case OpWait(e) => Some(e)
    case OpReset(e) => Some(e)
    case OpSetBegin(e, _) => Some(e)
    case OpSetNotify => if InSet(s, st.w) then Some(SetTarget(s, st.w)) else None
    case OpSetClear => if InSet(s, st.w) then Some(SetTarget(s, st.w)) else None
    case OpSetWake => if InSet(s, st.w) then Some(SetTarget(s, st.w)) else None
    case OpSetEnd => if InSet(s, st.w) then Some(SetTarget(s, st.w)) else None
    case OpAnyRegister => Place(s, st.w)
    case OpAnyRollBack => Place(s, st.w)
    case OpAnyCancel => Place(s, st.w)
    case _ => None
  }

  /** The event at which a call of `waitAny` has arrived. */
  function Place(s: State, w: WorkerId): Option<EventId> {
    if !Running(s, w) then None
    else
      match s.fibers[Current(s, w)].pc
      case Registering(n, i) => if n < |s.notifiers| && i < |s.notifiers[n].events| then Some(s.notifiers[n].events[i]) else None
      case RollingBack(n, _, j) => if n < |s.notifiers| && j < |s.notifiers[n].events| then Some(s.notifiers[n].events[j]) else None
      case Cancelling(n, j) => if n < |s.notifiers| && j < |s.notifiers[n].events| then Some(s.notifiers[n].events[j]) else None
      case _ => None
  }

  /** A step changes no other event than the one that it is about, and no event ever changes its kind. */
  lemma OtherEventsStay(s: State, st: Step, e: EventId)
    requires Next(s, st).Some? && e < |s.events|
    ensures e < |Next(s, st).value.events| && Next(s, st).value.events[e].auto == s.events[e].auto
    ensures Subject(s, st) != Some(e) ==> Next(s, st).value.events[e] == s.events[e]
  {
    if IsRootOp(st.op) {
      RootStepFrame(s, st);
    } else if IsWaitAny(st.op) {
      AnyLeavesEvents(s, st, e);
    } else {
      UserLeavesEvents(s, st, e);
    }
  }

  lemma AnyLeavesEvents(s: State, st: Step, e: EventId)
    requires Next(s, st).Some? && e < |s.events| && IsWaitAny(st.op)
    ensures e < |Next(s, st).value.events| && Next(s, st).value.events[e].auto == s.events[e].auto
    ensures Subject(s, st) != Some(e) ==> Next(s, st).value.events[e] == s.events[e]
  {
  }

  lemma UserLeavesEvents(s: State, st: Step, e: EventId)
    requires Next(s, st).Some? && e < |s.events| && !IsRootOp(st.op) && !IsWaitAny(st.op)
    ensures e < |Next(s, st).value.events| && Next(s, st).value.events[e].auto == s.events[e].auto
    ensures Subject(s, st) != Some(e) ==> Next(s, st).value.events[e] == s.events[e]
  {
  }

  /** A step of one worker changes no other worker, and the limit on fibers never changes. */
  lemma OtherWorkersStay(s: State, st: Step, w: WorkerId)
    requires Next(s, st).Some? && w < |s.workers|
    ensures |Next(s, st).value.workers| == |s.workers| && Next(s, st).value.maxFibers == s.maxFibers
    ensures w != st.w ==> Next(s, st).value.workers[w] == s.workers[w]
  {
    if IsRootOp(st.op) {
      RootLeavesWorkers(s, st, w);
    } else if IsWaitAny(st.op) {
      AnyLeavesWorkers(s, st);
    } else {
      UserLeavesWorkers(s, st, w);
    }
  }

  lemma RootLeavesWorkers(s: State, st: Step, w: WorkerId)
    requires Next(s, st).Some? && w < |s.workers| && IsRootOp(st.op)
    ensures |Next(s, st).value.workers| == |s.workers| && Next(s, st).value.maxFibers == s.maxFibers
    ensures w != st.w ==> Next(s, st).value.workers[w] == s.workers[w]
  {
  }

  lemma AnyLeavesWorkers(s: State, st: Step)
    requires Next(s, st).Some? && IsWaitAny(st.op)
    ensures Next(s, st).value.workers == s.workers && Next(s, st).value.maxFibers == s.maxFibers
  {
  }

  lemma UserLeavesWorkers(s: State, st: Step, w: WorkerId)
    requires Next(s, st).Some? && w < |s.workers| && !IsRootOp(st.op) && !IsWaitAny(st.op)
    ensures |Next(s, st).value.workers| == |s.workers| && Next(s, st).value.maxFibers == s.maxFibers
    ensures !st.op.OpSwitchOut? || w != st.w ==> Next(s, st).value.workers[w] == s.workers[w]
  {
  }

  /** A call of `waitAny` keeps its initiator and its events, and its answer once it has one. */
  lemma NotifiersStay(s: State, st: Step, n: NotifierId)
    requires FiberInv(s) && Next(s, st).Some? && n < |s.notifiers|
    ensures n < |Next(s, st).value.notifiers|
    ensures Next(s, st).value.notifiers[n].initiator == s.notifiers[n].initiator
    ensures Next(s, st).value.notifiers[n].events == s.notifiers[n].events
    ensures s.notifiers[n].key.Some? ==> Next(s, st).value.notifiers[n].key == s.notifiers[n].key
  {
    if IsRootOp(st.op) {
      RootStepFrame(s, st);
    } else if IsWaitAny(st.op) {
      if st.op.OpAnyRegister? && InRegister(s, st.w) {
        assert PcOk(s, s.fibers[Current(s, st.w)], Current(s, st.w));
      }
    } else if st.op.OpSetNotify? {
    } else {
      UserLeavesNotifiers(s, st);
    }
  }

  lemma UserLeavesNotifiers(s: State, st: Step)
    requires Next(s, st).Some? && !IsRootOp(st.op) && !IsWaitAny(st.op) && !st.op.OpSetNotify?
    ensures Next(s, st).value.notifiers == s.notifiers
  {
  }

  // ----- when an event is set -----

  /** Why the flag of an event goes up or down. */
  lemma FlagChanges(s: State, st: Step, e: EventId)
    requires EventInv(s) && Next(s, st).Some? && e < |s.events| == |Next(s, st).value.events|
    ensures var ev, ev' := s.events[e], Next(s, st).value.events[e];
            && (!ev.isSet && ev'.isSet ==>
                  || (st.op.OpSetBegin? && !ev.auto)
                  || (st.op.OpSetEnd? && ev.auto && ev.setter.Some? && !ev.setter.value.woke))
            && (ev.isSet && !ev'.isSet ==> st.op == OpReset(e) || (ev.auto && (st.op == OpWait(e) || st.op.OpAnyRegister?)))
  {
    assert EventOk(s, s.events[e], e);
    if Subject(s, st) != Some(e) {
      OtherEventsStay(s, st, e);
    } else if IsWaitAny(st.op) {
      AnyFlag(s, st, e);
    }
  }

  lemma AnyFlag(s: State, st: Step, e: EventId)
    requires Next(s, st).Some? && e < |s.events| == |Next(s, st).value.events| && IsWaitAny(st.op)
    ensures var ev, ev' := s.events[e], Next(s, st).value.events[e];
            ev'.isSet == ev.isSet || (st.op.OpAnyRegister? && ev.auto && ev.isSet)
  {
  }

  /** A manual-reset event that is set, and that no `set` is busy with, stays so until it is reset, however many fibers wait on it. */
  lemma ManualStaysSet(ss: seq<State>, steps: seq<Step>, k: nat, e: EventId)
    requires IsRun(ss, steps) && k < |steps| && e < |ss[k].events|
    requires !ss[k].events[e].auto && ss[k].events[e].isSet && ss[k].events[e].setter.None?
    requires steps[k].op != OpReset(e)
    ensures e < |ss[k + 1].events| && ss[k + 1].events[e].isSet && ss[k + 1].events[e].setter.None?
  {
    var s, st := ss[k], steps[k];
    assert Next(ss[k], steps[k]) == Some(ss[k + 1]);
    RunInv(ss, steps, k);
    EventsStay(s, st);
    FlagChanges(s, st, e);
    SetterComes(s, st, e);
  }

  /** A `set` begins at an event only when it is unset. */
  lemma SetterComes(s: State, st: Step, e: EventId)
    requires Next(s, st).Some? && e < |s.events| == |Next(s, st).value.events| && s.events[e].setter.None?
    ensures Next(s, st).value.events[e].setter.Some? ==> st.op.OpSetBegin? && !s.events[e].isSet
  {
    if Subject(s, st) != Some(e) {
      OtherEventsStay(s, st, e);
    } else if IsWaitAny(st.op) {
      AnySetter(s, st, e);
    }
  }

  lemma AnySetter(s: State, st: Step, e: EventId)
    requires Next(s, st).Some? && e < |s.events| == |Next(s, st).value.events| && IsWaitAny(st.op)
    ensures Next(s, st).value.events[e].setter == s.events[e].setter
  {
  }

  // ----- waiting, resetting, setting -----

  /** A wait on a set event returns at once; only an auto-reset event is unset by it. */
  lemma WaitOnSet(s: State, w: WorkerId, e: EventId)
    requires Next(s, Step(w, OpWait(e))).Some? && s.events[e].isSet
    ensures var s' := Next(s, Step(w, OpWait(e))).value;
            && |s'.events| == |s.events| && s'.events[e].isSet == !s.events[e].auto
            && s'.events[e].waiters == s.events[e].waiters && s'.events[e].anyWaiters == s.events[e].anyWaiters
            && s'.fibers == s.fibers && s'.ready == s.ready && InUser(s', w)
  {
  }

  /** A wait on an unset event puts the fiber behind those that wait already, and parks it. */
  lemma WaitOnUnset(s: State, w: WorkerId, e: EventId)
    requires Next(s, Step(w, OpWait(e))).Some? && !s.events[e].isSet
    ensures var s' := Next(s, Step(w, OpWait(e))).value; var f := Current(s, w);
            && |s'.events| == |s.events| && !s'.events[e].isSet
            && s'.events[e].waiters == s.events[e].waiters + [f] && s'.events[e].anyWaiters == s.events[e].anyWaiters
            && PcIs(s', f, Parked(OnEvent(e))) && s'.ready == s.ready
            && forall g :: 0 <= g < |s.fibers| && g != f ==> s'.fibers[g] == s.fibers[g]
  {
  }

  /** After a reset the event is unset, and nobody who waited is lost. */
  lemma ResetUnsets(s: State, w: WorkerId, e: EventId)
    requires EventInv(s) && Next(s, Step(w, OpReset(e))).Some?
    ensures var s' := Next(s, Step(w, OpReset(e))).value;
            && |s'.events| == |s.events| && !s'.events[e].isSet
            && s'.events[e].waiters == s.events[e].waiters && s'.events[e].anyWaiters == s.events[e].anyWaiters
            && s'.fibers == s.fibers && s'.ready == s.ready
  {
    assert EventOk(s, s.events[e], e);
  }

  /** A `set` on a set event does nothing; on an unset one it takes the event, and sets it at once when it is a manual-reset one. */
  lemma SetStarts(s: State, w: WorkerId, e: EventId, all: bool)
    requires Next(s, Step(w, OpSetBegin(e, all))).Some?
    ensures var s' := Next(s, Step(w, OpSetBegin(e, all))).value;
            if s.events[e].isSet then s' == s
            else
              && |s'.events| == |s.events| && s'.events[e].isSet == !s.events[e].auto
              && s'.events[e].setter.Some? && s'.events[e].setter.value.owner == Current(s, w)
              && s'.events[e].setter.value.all == all && !s'.events[e].setter.value.woke
              && s'.events[e].waiters == s.events[e].waiters && s'.events[e].anyWaiters == s.events[e].anyWaiters
              && s'.ready == s.ready && InSet(s', w) && SetTarget(s', w) == e
  {
  }

  /** A `set` comes to its first notifier: unfired, it is answered with this event and its initiator becomes ready; fired, it is passed. */
  lemma SetMeetsNotifier(s: State, w: WorkerId)
    requires Inv(s) && Next(s, Step(w, OpSetNotify)).Some?
    ensures var s' := Next(s, Step(w, OpSetNotify)).value;
            && InSet(s, w) && |s'.events| == |s.events|
            && var e := SetTarget(s, w);
            && (NotifierAnswered(s, s', OpSetNotify, e) || DeadPassed(s, s', OpSetNotify, e))
            && s'.events[e].isSet == s.events[e].isSet && s'.events[e].setter.Some?
            && s'.events[e].setter.value.all == s.events[e].setter.value.all
  {
    HeadFacts(s, w);
  }

  /** It comes to the first fiber that waits, when it has passed all notifiers: the fiber becomes ready. */
  lemma SetMeetsWaiter(s: State, w: WorkerId)
    requires Inv(s) && Next(s, Step(w, OpSetWake)).Some?
    ensures var s' := Next(s, Step(w, OpSetWake)).value;
            && InSet(s, w) && |s'.events| == |s.events|
            && var e := SetTarget(s, w);
            && WaiterWoken(s, s', OpSetWake, e) && s'.events[e].isSet == s.events[e].isSet
            && (s'.events[e].setter.None? <==> s.events[e].auto && !s.events[e].setter.value.all)
            && (s'.events[e].setter.Some? ==>
                  s'.events[e].setter.value.woke && s'.events[e].setter.value.all == s.events[e].setter.value.all)
  {
    var e := SetTarget(s, w);
    var g := s.events[e].waiters[0];
    assert Holds(s, InEvent(e), g);
    assert Is(s, g, InEvent(e));
    assert Fits(s, s.fibers[g]);
  }

  /**
    How a `set` ends. On a manual-reset event nobody waits any more and the event is set; after a set(true) on an auto-reset event
    nobody waits, and it is set if and only if nobody was woken; after a set(false) on it somebody was woken, or it is set.
  */
  lemma SetEnds(s: State, st: Step, e: EventId)
    requires EventInv(s) && Next(s, st).Some? && e < |s.events| == |Next(s, st).value.events|
    requires s.events[e].setter.Some? && Next(s, st).value.events[e].setter.None?
    ensures var ev, ev' := s.events[e], Next(s, st).value.events[e];
            && ev'.visited == []
            && (!ev.auto || ev.setter.value.all ==> ev'.waiters == [] && ev'.anyWaiters == [])
            && (!ev.auto ==> ev'.isSet)
            && (ev.auto && ev.setter.value.all ==> (ev'.isSet <==> !ev.setter.value.woke))
            && (ev.auto && !ev.setter.value.all ==>
                  (ev'.isSet <==> !ev.setter.value.woke && st.op.OpSetEnd?) && (ev'.isSet ==> ev'.waiters == [] && ev'.anyWaiters == []))
  {
    assert EventOk(s, s.events[e], e);
    if Subject(s, st) != Some(e) {
      OtherEventsStay(s, st, e);
    } else if IsWaitAny(st.op) {
      AnySetter(s, st, e);
    }
  }

  // ----- a broadcast reaches everybody -----

  /** The steps i to j - 1 lie inside one `set` at event e. */
  predicate DuringSet(ss: seq<State>, e: EventId, i: nat, j: nat) {
    i <= j < |ss| && forall k :: i <= k < j ==> e < |ss[k].events| && ss[k].events[e].setter.Some?
  }

  /** n is registered with e in front of the loop, or has been answered. */
  predicate StillOrFired(s: State, e: EventId, n: NotifierId) {
    e < |s.events| && (n in s.events[e].anyWaiters || (n < |s.notifiers| && s.notifiers[n].key.Some?))
  }

  /** What a step does to the registrations with an event that a `set` is busy with. */
  lemma AnyWaitersStep(s: State, st: Step, e: EventId)
    requires Inv(s) && Next(s, st).Some? && e < |s.events| == |Next(s, st).value.events| && s.events[e].setter.Some?
    ensures var q, q' := s.events[e].anyWaiters, Next(s, st).value.events[e].anyWaiters;
            || q' == q
            || (q != [] && q' == q[1..] && q[0] < |Next(s, st).value.notifiers| && Next(s, st).value.notifiers[q[0]].key.Some?)
  {
    if Subject(s, st) != Some(e) {
      OtherEventsStay(s, st, e);
    } else if st.op.OpSetNotify? {
      SetMeetsNotifier(s, st.w);
    } else if IsWaitAny(st.op) {
      AnyLeavesTaken(s, st, e);
    } else {
      SetLeavesAnyWaiters(s, st, e);
    }
  }

  lemma SetLeavesAnyWaiters(s: State, st: Step, e: EventId)
    requires Next(s, st).Some? && e < |s.events| == |Next(s, st).value.events| && s.events[e].setter.Some?
    requires Subject(s, st) == Some(e) && !IsWaitAny(st.op) && !st.op.OpSetNotify?
    ensures Next(s, st).value.events[e].anyWaiters == s.events[e].anyWaiters
    ensures !st.op.OpSetWake? ==> Next(s, st).value.events[e].waiters == s.events[e].waiters
  {
  }

  lemma AnyLeavesTaken(s: State, st: Step, e: EventId)
    requires Next(s, st).Some? && e < |s.events| == |Next(s, st).value.events| && IsWaitAny(st.op) && s.events[e].setter.Some?
    ensures Next(s, st).value.events[e] == s.events[e]
  {
  }

  lemma QueueMembers(q: seq<NotifierId>, q2: seq<NotifierId>, n: NotifierId)
    requires (q2 == q || (q != [] && q2 == q[1..])) && n in q
    ensures n in q2 || (q != [] && n == q[0])
  {
    assert q != [] ==> q == [q[0]] + q[1..];
  }

  lemma StillStep(s: State, st: Step, e: EventId, n: NotifierId)
    requires Inv(s) && Next(s, st).Some? && e < |s.events| && s.events[e].setter.Some? && StillOrFired(s, e, n)
    ensures StillOrFired(Next(s, st).value, e, n)
  {
    EventsStay(s, st);
    if n < |s.notifiers| && s.notifiers[n].key.Some? {
      NotifiersStay(s, st, n);
    } else {
      AnyWaitersStep(s, st, e);
      QueueMembers(s.events[e].anyWaiters, Next(s, st).value.events[e].anyWaiters, n);
    }
  }

  /** What every step keeps lasts. */
  lemma {:induction false} Lasts(holds: seq<bool>, i: nat, j: nat)
    requires i <= j < |holds| && holds[i] && forall k :: i <= k < j ==> holds[k] ==> holds[k + 1]
    ensures holds[j]
    decreases j
  {
    if i < j {
      Lasts(holds, i, j - 1);
      assert holds[j - 1] ==> holds[j - 1 + 1];
    }
  }

  lemma AnyWaitersDuringSet(ss: seq<State>, steps: seq<Step>, e: EventId, i: nat, j: nat, n: NotifierId)
    requires IsRun(ss, steps) && DuringSet(ss, e, i, j) && e < |ss[i].events| && n in ss[i].events[e].anyWaiters
    ensures StillOrFired(ss[j], e, n)
  {
    var holds := seq(|ss|, k requires 0 <= k < |ss| => StillOrFired(ss[k], e, n));
    forall k | i <= k < j && holds[k] ensures holds[k + 1] {
      RunInv(ss, steps, k);
      assert Next(ss[k], steps[k]) == Some(ss[k + 1]);
      StillStep(ss[k], steps[k], e, n);
    }
    Lasts(holds, i, j);
  }

  /** The fiber that step k wakes from event e, if it does. */
  function WokenBy(ss: seq<State>, steps: seq<Step>, e: EventId, k: nat): seq<FiberId>
    requires k < |steps| && |ss| == |steps| + 1
  {
    var ready := ss[k + 1].ready;
    if steps[k].op.OpSetWake? && ready != [] && Subject(ss[k], steps[k]) == Some(e) then [ready[|ready| - 1]] else []
  }

  /** The fibers that the steps from i to j - 1 wake from event e. */
  function WokenFrom(ss: seq<State>, steps: seq<Step>, e: EventId, i: nat, j: nat): seq<FiberId>
    requires i <= j <= |steps| && |ss| == |steps| + 1
  {
    Flatten(AllWoken(ss, steps, e)[i..j])
  }

  function AllWoken(ss: seq<State>, steps: seq<Step>, e: EventId): (r: seq<seq<FiberId>>)
    requires |ss| == |steps| + 1
    ensures |r| == |steps|
  {
    seq(|steps|, k requires 0 <= k < |steps| => WokenBy(ss, steps, e, k))
  }

  function Queues(ss: seq<State>, e: EventId): (r: seq<seq<FiberId>>)
    ensures |r| == |ss|
  {
    seq(|ss|, k requires 0 <= k < |ss| => Queue(ss[k], e))
  }

  lemma WaitersStep(s: State, st: Step, e: EventId)
    requires Inv(s) && Next(s, st).Some? && e < |s.events| == |Next(s, st).value.events| && s.events[e].setter.Some?
    requires !(st.op.OpSetWake? && Subject(s, st) == Some(e))
    ensures Next(s, st).value.events[e].waiters == s.events[e].waiters
  {
    if Subject(s, st) != Some(e) {
      OtherEventsStay(s, st, e);
    } else if st.op.OpSetNotify? {
      SetMeetsNotifier(s, st.w);
    } else if IsWaitAny(st.op) {
      AnyLeavesWaiters(s, st, e);
    } else {
      SetLeavesAnyWaiters(s, st, e);
    }
  }

  lemma WokenFirst(s: State, w: WorkerId)
    requires Inv(s) && Next(s, Step(w, OpSetWake)).Some?
    ensures var s' := Next(s, Step(w, OpSetWake)).value;
            && InSet(s, w) && |s'.events| == |s.events| && s'.ready != []
            && s.events[SetTarget(s, w)].waiters == [s'.ready[|s'.ready| - 1]] + s'.events[SetTarget(s, w)].waiters
  {
    SetMeetsWaiter(s, w);
  }

  lemma AnyLeavesWaiters(s: State, st: Step, e: EventId)
    requires Next(s, st).Some? && e < |s.events| == |Next(s, st).value.events| && IsWaitAny(st.op)
    ensures Next(s, st).value.events[e].waiters == s.events[e].waiters
  {
  }

  /** The fibers that wait on an event. */
  function Queue(s: State, e: EventId): seq<FiberId> {
    if e < |s.events| then s.events[e].waiters else []
  }

  lemma RunWaitersStep(ss: seq<State>, steps: seq<Step>, k: nat, e: EventId)
    requires IsRun(ss, steps) && k < |steps| && e < |ss[k].events| && ss[k].events[e].setter.Some?
    ensures Queue(ss[k], e) == WokenBy(ss, steps, e, k) + Queue(ss[k + 1], e)
  {
    RunInv(ss, steps, k);
    assert Next(ss[k], steps[k]) == Some(ss[k + 1]);
    EventsStay(ss[k], steps[k]);
    var q := ss[k + 1].events[e].waiters;
    assert [] + q == q;
    if steps[k].op.OpSetWake? && Subject(ss[k], steps[k]) == Some(e) {
      WokenFirst(ss[k], steps[k].w);
    } else {
      WaitersStep(ss[k], steps[k], e);
    }
  }

  /** A queue that loses its front piece by piece. */
  lemma {:induction false} FrontsTaken(queues: seq<seq<FiberId>>, fronts: seq<seq<FiberId>>, i: nat, j: nat)
    requires i <= j < |queues| == |fronts| + 1 && forall k :: i <= k < j ==> queues[k] == fronts[k] + queues[k + 1]
    ensures queues[i] == Flatten(fronts[i..j]) + queues[j]
    decreases j
  {
    if i < j {
      FrontsTaken(queues, fronts, i, j - 1);
      assert queues[j - 1] == fronts[j - 1] + queues[j - 1 + 1];
      assert fronts[i..j] == fronts[i..j - 1] + [fronts[j - 1]];
      FlattenAppend(fronts[i..j - 1], [fronts[j - 1]]);
      FlattenOne(fronts[j - 1]);
      Associate(Flatten(fronts[i..j - 1]), fronts[j - 1], queues[j]);
    } else {
      assert fronts[i..i] == [] && Flatten(fronts[i..i]) + queues[i] == queues[i];
    }
  }

  lemma WaitersDuringSet(ss: seq<State>, steps: seq<Step>, e: EventId, i: nat, j: nat)
    requires IsRun(ss, steps) && DuringSet(ss, e, i, j)
    ensures Queue(ss[i], e) == WokenFrom(ss, steps, e, i, j) + Queue(ss[j], e)
  {
    var queues, fronts := Queues(ss, e), AllWoken(ss, steps, e);
    forall k | i <= k < j ensures queues[k] == fronts[k] + queues[k + 1] {
      RunWaitersStep(ss, steps, k, e);
    }
    FrontsTaken(queues, fronts, i, j);
  }

  lemma BroadcastEnds(ss: seq<State>, steps: seq<Step>, k: nat, e: EventId)
    requires IsRun(ss, steps) && k < |steps| && e < |ss[k].events| && e < |ss[k + 1].events|
    requires ss[k].events[e].setter.Some? && ss[k + 1].events[e].setter.None?
    requires !ss[k].events[e].auto || ss[k].events[e].setter.value.all
    ensures Queue(ss[k + 1], e) == [] && ss[k + 1].events[e].anyWaiters == []
  {
    RunInv(ss, steps, k);
    assert Next(ss[k], steps[k]) == Some(ss[k + 1]);
    EventsStay(ss[k], steps[k]);
    SetEnds(ss[k], steps[k], e);
  }

  /**
    A `set` on a manual-reset event, or a set(true) on an auto-reset one, that is under way from state i on and over in state j: the
    fibers that waited become ready, each once, in the order in which they came, and every registered `waitAny` has an answer.
  */
  lemma BroadcastReachesAll(ss: seq<State>, steps: seq<Step>, e: EventId, i: nat, j: nat)
    requires IsRun(ss, steps) && i < j && DuringSet(ss, e, i, j) && e < |ss[j].events| && ss[j].events[e].setter.None?
    requires !ss[j - 1].events[e].auto || ss[j - 1].events[e].setter.value.all
    ensures WokenFrom(ss, steps, e, i, j) == ss[i].events[e].waiters
    ensures forall n :: n in ss[i].events[e].anyWaiters ==> n < |ss[j].notifiers| && ss[j].notifiers[n].key.Some?
  {
    BroadcastEnds(ss, steps, j - 1, e);
    WaitersDuringSet(ss, steps, e, i, j);
    var woken := WokenFrom(ss, steps, e, i, j);
    assert woken + [] == woken;
    forall n | n in ss[i].events[e].anyWaiters ensures n < |ss[j].notifiers| && ss[j].notifiers[n].key.Some? {
      AnyWaitersDuringSet(ss, steps, e, i, j, n);
    }
  }

  // ----- waitAny -----

  /** A call of `waitAny` begins with a notifier of its own, unfired, for the calling fiber and the events asked for. */
  lemma AnyStarts(s: State, w: WorkerId, es: seq<EventId>)
    requires Next(s, Step(w, OpAnyBegin(es))).Some?
    ensures var s' := Next(s, Step(w, OpAnyBegin(es))).value; var n := |s.notifiers|;
            && |s'.notifiers| == n + 1 && s'.notifiers[..n] == s.notifiers && s'.events == s.events && s'.ready == s.ready
            && s'.notifiers[n].initiator == Current(s, w) && s'.notifiers[n].events == es && s'.notifiers[n].key.None?
            && PcIs(s', Current(s, w), Registering(n, 0))
  {
  }

  /**
    It comes to event number i. Found set, the event is the answer, and only an auto-reset one is unset by it; otherwise the call
    is registered behind the others and goes on to the next event.
  */
  lemma AnyMeetsEvent(s: State, w: WorkerId, n: NotifierId, i: nat)
    requires FiberInv(s) && Next(s, Step(w, OpAnyRegister)).Some? && s.fibers[Current(s, w)].pc == Registering(n, i)
    requires i < |s.notifiers[n].events| && s.notifiers[n].events[i] < |s.events|
    ensures var s' := Next(s, Step(w, OpAnyRegister)).value; var e := s.notifiers[n].events[i];
            && |s'.events| == |s.events| && |s'.notifiers| == |s.notifiers| && s'.ready == s.ready
            && s'.events[e].waiters == s.events[e].waiters
            && if s.events[e].isSet then
                 && s'.events[e].isSet == !s.events[e].auto && s'.events[e].anyWaiters == s.events[e].anyWaiters
                 && s'.notifiers[n].key == Some(e) && PcIs(s', Current(s, w), RollingBack(n, i, 0))
               else
                 && !s'.events[e].isSet && s'.events[e].anyWaiters == s.events[e].anyWaiters + [n]
                 && s'.notifiers == s.notifiers && PcIs(s', Current(s, w), Registering(n, i + 1))
  {
  }

  /** When no event was set, the caller parks until one of them answers. */
  lemma AnyParks(s: State, w: WorkerId, n: NotifierId, i: nat)
    requires FiberInv(s) && Next(s, Step(w, OpAnyRegister)).Some? && s.fibers[Current(s, w)].pc == Registering(n, i)
    requires i >= |s.notifiers[n].events|
    ensures var s' := Next(s, Step(w, OpAnyRegister)).value;
            s'.events == s.events && s'.ready == s.ready && PcIs(s', Current(s, w), Parked(OnAny(n))) && !s'.notifiers[n].locked
  {
  }

  /** q2 is q, or q without one entry of a call of fiber f; the others stay in their order. */
  ghost predicate OneLess(s: State, f: FiberId, q: seq<NotifierId>, q2: seq<NotifierId>) {
    q2 == q || exists i :: 0 <= i < |q| && q2 == q[..i] + q[i + 1..] && q[i] < |s.notifiers| && s.notifiers[q[i]].initiator == f
  }

  /** Taking a registration back takes off at most one entry, one of the fiber's own, and leaves all others in their order. */
  lemma CancelKeepsOthers(s: State, st: Step, e: EventId)
    requires FiberInv(s) && Next(s, st).Some? && (st.op.OpAnyRollBack? || st.op.OpAnyCancel?) && e < |s.events|
    ensures var s' := Next(s, st).value;
            && |s'.events| == |s.events|
            && s'.events[e] == s.events[e].(anyWaiters := s'.events[e].anyWaiters)
            && OneLess(s, Current(s, st.w), s.events[e].anyWaiters, s'.events[e].anyWaiters)
  {
    AnyStepFrame(s, st);
    if Subject(s, st) != Some(e) {
      OtherEventsStay(s, st, e);
    } else {
      var f := Current(s, st.w);
      var n := s.fibers[f].pc.n;
      assert PcOk(s, s.fibers[f], f);
      CancelledLists(s, st, e, n);
      TakenOff(s, f, s.events[e].anyWaiters, n);
    }
  }

  lemma TakenOff(s: State, f: FiberId, q: seq<NotifierId>, n: NotifierId)
    requires n < |s.notifiers| && s.notifiers[n].initiator == f
    ensures OneLess(s, f, q, RemoveFirst(q, n))
  {
    if n in q {
      var i := RemoveFirstAt(q, n);
    } else {
      RemoveFirstAbsent(q, n);
    }
  }

  lemma CancelledLists(s: State, st: Step, e: EventId, n: NotifierId)
    requires Next(s, st).Some? && (st.op.OpAnyRollBack? || st.op.OpAnyCancel?) && e < |s.events| && Subject(s, st) == Some(e)
    requires n == s.fibers[Current(s, st.w)].pc.n
    ensures var q := s.events[e].anyWaiters;
            || Next(s, st).value.events[e] == s.events[e]
            || Next(s, st).value.events[e] == s.events[e].(anyWaiters := RemoveFirst(q, n))
  {
  }

  // ----- mutexes, and fibers that hand themselves over -----

  /** `lock` on a free mutex lets the fiber go on as its holder; on a held one the fiber stands at the end of the line and parks. */
  lemma LockTakesOrParks(s: State, w: WorkerId, m: MutexId)
    requires Next(s, Step(w, OpLock(m))).Some?
    ensures var s' := Next(s, Step(w, OpLock(m))).value; var f := Current(s, w);
            && |s'.mutexes| == |s.mutexes| && s'.ready == s.ready && s'.events == s.events
            && s'.mutexes[m].owners == s.mutexes[m].owners + [f] && s'.mutexes[m].arrivals == s.mutexes[m].arrivals + [f]
            && (if s.mutexes[m].owners == [] then s'.fibers == s.fibers else PcIs(s', f, Parked(OnMutex(m))))
  {
  }

  /** `tryLock` makes the fiber the holder of a free mutex; a held one it leaves as it is. */
  lemma TryLockNeverParks(s: State, w: WorkerId, m: MutexId)
    requires Next(s, Step(w, OpTryLock(m))).Some?
    ensures var s' := Next(s, Step(w, OpTryLock(m))).value;
            && |s'.mutexes| == |s.mutexes| && s'.fibers == s.fibers && s'.ready == s.ready
            && (if s.mutexes[m].owners == [] then s'.mutexes[m].owners == [Current(s, w)] else s' == s)
  {
  }

  /** A step leaves all mutexes alone but the one that it locks or unlocks. */
  lemma OtherMutexesStay(s: State, st: Step, m: MutexId)
    requires Next(s, st).Some? && m < |s.mutexes| && st.op != OpLock(m) && st.op != OpTryLock(m) && st.op != OpUnlock(m)
    ensures m < |Next(s, st).value.mutexes| && Next(s, st).value.mutexes[m] == s.mutexes[m]
  {
    if !IsLocking(st.op) { OthersLeaveMutexes(s, st); }
  }

  /** A fiber whose task is done is idle; one that yields is the last of the ready ones. */
  lemma HandingOver(s: State, w: WorkerId)
    requires InUser(s, w)
    ensures Next(s, Step(w, OpFinish)).Some? && Next(s, Step(w, OpYield)).Some?
    ensures var s', f := Next(s, Step(w, OpFinish)).value, Current(s, w);
            s'.idle == s.idle + {f} && s'.ready == s.ready && PcIs(s', f, Parked(Finished))
    ensures var s', f := Next(s, Step(w, OpYield)).value, Current(s, w);
            s'.idle == s.idle && s'.ready == s.ready + [f] && PcIs(s', f, Parked(Yielded))
  {
  }

  /** Where a fiber goes on that a worker enters: in user code, or, after a `waitAny`, with taking back its registrations. */
  lemma EnteredGoesOn(s: State, w: WorkerId)
    requires Next(s, Step(w, OpEnterReady)).Some? && !s.fibers[s.workers[w].mode.f].locked
    ensures var s', f := Next(s, Step(w, OpEnterReady)).value, s.workers[w].mode.f;
            && Running(s', w) && Current(s', w) == f && s'.fibers[f].locked
            && s.fibers[f].pc.Parked?
            && s'.fibers[f].pc == (match s.fibers[f].pc.why case OnAny(n) => Cancelling(n, 0) case _ => User)
  {
  }

  /**
    The fibers that a worker has popped and could not enter stay in its hand in the order in which they were popped, and go back in that
    order behind everybody who is ready; a fiber that it could enter leaves its hand.
  */
  lemma PassKeepsOrder(s: State, st: Step)
    requires Next(s, st).Some? && (st.op.OpPopReady? || st.op.OpEnterReady? || st.op.OpPutBackReady?)
    ensures st.w < |s.workers| == |Next(s, st).value.workers|
    ensures var hand, hand' := ReadyHands(s.workers[st.w].mode), ReadyHands(Next(s, st).value.workers[st.w].mode);
            match st.op
            case OpPopReady => s.ready != [] && hand' == hand + [s.ready[0]] && Next(s, st).value.ready == s.ready[1..]
            case OpEnterReady =>
              && hand != [] && hand[|hand| - 1] < |s.fibers| && Next(s, st).value.ready == s.ready
              && hand' == if s.fibers[hand[|hand| - 1]].locked then hand else hand[..|hand| - 1]
            case _ => hand' == [] && Next(s, st).value.ready == s.ready + hand
  {
  }
}
