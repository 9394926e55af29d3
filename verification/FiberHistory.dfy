/** What runs of the fiber runtime keep in order and in balance. */
module FiberHistory {
  import opened Basics
  import opened FiberModel
  import opened FiberInvariant
  import opened FiberSafety

  // ----- the ready queue is fair -----

  predicate Ahead(q: seq<FiberId>, f: FiberId, g: FiberId) {
    exists i, j :: 0 <= i < j < |q| && q[i] == f && q[j] == g
  }

  lemma ReadyStep(s: State, st: Step)
    requires Next(s, st).Some?
    ensures if st.op.OpPopReady? then s.ready != [] && Next(s, st).value.ready == s.ready[1..] else s.ready <= Next(s, st).value.ready
  {
    if IsRootOp(st.op) {
      RootReadyStep(s, st);
    } else if IsWaitAny(st.op) {
      AnyStepFrame(s, st);
    } else {
      UserReadyStep(s, st);
    }
  }

  lemma RootReadyStep(s: State, st: Step)
    requires Next(s, st).Some? && IsRootOp(st.op)
    ensures if st.op.OpPopReady? then s.ready != [] && Next(s, st).value.ready == s.ready[1..] else s.ready <= Next(s, st).value.ready
  {
  }

  lemma UserReadyStep(s: State, st: Step)
    requires Next(s, st).Some? && !IsRootOp(st.op) && !IsWaitAny(st.op)
    ensures s.ready <= Next(s, st).value.ready
  {
  }

  /** One queue follows from the other: only the front leaves, and fibers come in at the end. */
  predicate QueueStep(q: seq<FiberId>, q': seq<FiberId>) {
    NoDup(q) && (q <= q' || (q != [] && q' == q[1..]))
  }

  lemma ReadyFollows(ss: seq<State>, steps: seq<Step>, k: nat)
    requires IsRun(ss, steps) && k < |steps|
    ensures QueueStep(ss[k].ready, ss[k + 1].ready)
  {
    RunInv(ss, steps, k);
    assert Next(ss[k], steps[k]) == Some(ss[k + 1]);
    ReadyStep(ss[k], steps[k]);
  }

  lemma AheadStep(q: seq<FiberId>, q': seq<FiberId>, f: FiberId, g: FiberId)
    requires Ahead(q, f, g) && (q <= q' || (NoDup(q) && q' == q[1..] && f in q'))
    ensures Ahead(q', f, g)
  {
    var i, j :| 0 <= i < j < |q| && q[i] == f && q[j] == g;
    if q <= q' {
      assert q'[i] == f && q'[j] == g;
    } else {
      TailMembers(q);
      assert q'[i - 1] == f && q'[j - 1] == g;
    }
  }

  lemma {:induction false} QueueOrder(qs: seq<seq<FiberId>>, i: nat, j: nat, f: FiberId, g: FiberId)
    requires i <= j < |qs| && Ahead(qs[i], f, g)
    requires forall k :: 0 <= k < |qs| - 1 ==> QueueStep(qs[k], qs[k + 1])
    requires forall k :: i <= k <= j ==> f in qs[k]
    ensures Ahead(qs[j], f, g)
  {
    if i < j {
      QueueOrder(qs, i, j - 1, f, g);
      assert QueueStep(qs[j - 1], qs[j - 1 + 1]);
      AheadStep(qs[j - 1], qs[j], f, g);
    }
  }

  /** As long as a ready fiber has not been popped, nobody who became ready after it is popped or comes before it. */
  lemma NobodyOvertakes(ss: seq<State>, steps: seq<Step>, i: nat, j: nat, f: FiberId, g: FiberId)
    requires IsRun(ss, steps) && i <= j < |ss| && Ahead(ss[i].ready, f, g)
    requires forall k :: i <= k <= j ==> f in ss[k].ready
    ensures Ahead(ss[j].ready, f, g)
  {
    var qs := seq(|ss|, k requires 0 <= k < |ss| => ss[k].ready);
    forall k | 0 <= k < |qs| - 1 ensures QueueStep(qs[k], qs[k + 1]) {
      ReadyFollows(ss, steps, k);
    }
    QueueOrder(qs, i, j, f, g);
  }

  // ----- who took the signals -----

  /** The calls of `waitAny` that event e has answered. */
  function Answered(s: State, e: EventId): set<NotifierId> {
    set n | 0 <= n < |s.notifiers| && s.notifiers[n].key == Some(e)
  }

  /** The step ends a plain wait on e: the event was found set, or the waiter is woken. */
  predicate EndsPlainWait(s: State, st: Step, e: EventId) {
    || (st.op == OpWait(e) && e < |s.events| && s.events[e].isSet)
    || (st.op.OpSetWake? && InSet(s, st.w) && SetTarget(s, st.w) == e)
  }

  /** The plain waits on e that ended in the first k steps. */
  function PlainWaits(ss: seq<State>, steps: seq<Step>, k: nat, e: EventId): nat
    requires k <= |steps| && |ss| == |steps| + 1
  {
    if k == 0 then 0 else PlainWaits(ss, steps, k - 1, e) + (if EndsPlainWait(ss[k - 1], steps[k - 1], e) then 1 else 0)
  }

  lemma SameAnswered(s: State, s': State, e: EventId)
    requires s.notifiers <= s'.notifiers && forall n :: |s.notifiers| <= n < |s'.notifiers| ==> s'.notifiers[n].key.None?
    ensures Answered(s', e) == Answered(s, e)
  {
  }

  lemma NewAnswer(s: State, s': State, n: NotifierId, d: EventId, e: EventId)
    requires n < |s.notifiers| == |s'.notifiers| && s'.notifiers == s.notifiers[n := s'.notifiers[n]]
    requires s.notifiers[n].key.None? && s'.notifiers[n].key == Some(d)
    ensures Answered(s', e) == Answered(s, e) + (if d == e then {n} else {})
    ensures n !in Answered(s, e)
  {
  }

  predicate MayAnswer(op: Op) {
    op.OpSetNotify? || op.OpAnyRegister? || op.OpAnyBegin?
  }

  /** What a step that answers no `waitAny` does to event e. */
  predicate TakenAlone(s: State, st: Step, s': State, e: EventId)
    requires e < |s.events|
  {
    && s'.notifiers == s.notifiers && |s'.events| == |s.events| && s'.events[e].auto == s.events[e].auto
    && s'.events[e].taken == s.events[e].taken + (if s.events[e].auto && EndsPlainWait(s, st, e) then 1 else 0)
  }

  lemma SetAnswersNobody(s: State, st: Step, e: EventId)
    requires Next(s, st).Some? && e < |s.events|
    requires st.op.OpWait? || st.op.OpSetWake? || st.op.OpSetEnd? || st.op.OpSetBegin? || st.op.OpReset?
    ensures TakenAlone(s, st, Next(s, st).value, e)
  {
  }

  lemma OthersAnswerNobody(s: State, st: Step, e: EventId)
    requires Next(s, st).Some? && !MayAnswer(st.op) && e < |s.events|
    ensures TakenAlone(s, st, Next(s, st).value, e)
  {
    if IsRootOp(st.op) {
      RootStepFrame(s, st);
    } else if st.op.OpWait? || st.op.OpSetWake? || st.op.OpSetEnd? || st.op.OpSetBegin? || st.op.OpReset? {
      SetAnswersNobody(s, st, e);
    }
  }

  /** What a step does to event e when n is the `waitAny` that it answers with e. */
  ghost predicate TakenFor(s: State, st: Step, s': State, e: EventId, n: Option<NotifierId>)
    requires e < |s.events|
  {
    && |s'.events| == |s.events| && s'.events[e].auto == s.events[e].auto
    && Answered(s', e) == Answered(s, e) + (if n.Some? then {n.value} else {}) && (n.Some? ==> n.value !in Answered(s, e))
    && (s.events[e].auto ==>
          s'.events[e].taken == s.events[e].taken + (if EndsPlainWait(s, st, e) then 1 else 0) + (if n.Some? then 1 else 0))
  }

  lemma NotifyTakes(s: State, w: WorkerId, e: EventId) returns (n: Option<NotifierId>)
    requires SetNotify(s, w).Some? && e < |s.events|
    ensures TakenFor(s, Step(w, OpSetNotify), SetNotify(s, w).value, e, n)
  {
    var s', d := SetNotify(s, w).value, SetTarget(s, w);
    var m := s.events[d].anyWaiters[0];
    if s.notifiers[m].key.None? {
      NewAnswer(s, s', m, d, e);
      return if d == e then Some(m) else None;
    }
    return None;
  }

  lemma RegisterTakes(s: State, w: WorkerId, e: EventId) returns (n: Option<NotifierId>)
    requires FiberInv(s) && AnyRegister(s, w).Some? && e < |s.events|
    ensures TakenFor(s, Step(w, OpAnyRegister), AnyRegister(s, w).value, e, n)
  {
    var s' := AnyRegister(s, w).value;
    var m := s.fibers[Current(s, w)].pc.n;
    assert PcOk(s, s.fibers[Current(s, w)], Current(s, w));
    if s'.notifiers[m].key.Some? {
      var d := s'.notifiers[m].key.value;
      NewAnswer(s, s', m, d, e);
      return if d == e then Some(m) else None;
    }
    assert Answered(s', e) == Answered(s, e);
    return None;
  }

  lemma TakenStep(s: State, st: Step, e: EventId) returns (n: Option<NotifierId>)
    requires FiberInv(s) && Next(s, st).Some? && e < |s.events|
    ensures TakenFor(s, st, Next(s, st).value, e, n)
  {
    n := None;
    if st.op.OpSetNotify? {
      n := NotifyTakes(s, st.w, e);
    } else if st.op.OpAnyRegister? {
      n := RegisterTakes(s, st.w, e);
    } else {
      if !st.op.OpAnyBegin? { OthersAnswerNobody(s, st, e); }
      SameAnswered(s, Next(s, st).value, e);
    }
  }

  lemma GrownByOne<T>(a: set<T>, x: T)
    requires x !in a
    ensures |a + {x}| == |a| + 1
  {
  }

  lemma EventsStay(s: State, st: Step)
    requires Next(s, st).Some?
    ensures |Next(s, st).value.events| == |s.events|
  {
    if IsRootOp(st.op) {
      RootStepFrame(s, st);
    } else if IsWaitAny(st.op) {
      AnyStepFrame(s, st);
    } else if !IsLocking(st.op) {
      UserStepFrame(s, st);
    }
  }

  lemma {:induction false} TakenByWaits(ss: seq<State>, steps: seq<Step>, k: nat, e: EventId)
    requires IsRun(ss, steps) && k < |ss| && e < |ss[k].events| && ss[k].events[e].auto
    ensures ss[k].events[e].taken == PlainWaits(ss, steps, k, e) + |Answered(ss[k], e)|
  {
    if k == 0 {
      assert ss[0].events[e] == Event(true, false, [], [], [], None, 0, 0, 0) && Answered(ss[0], e) == {};
    } else {
      assert Next(ss[k - 1], steps[k - 1]) == Some(ss[k - 1 + 1]);
      RunInv(ss, steps, k - 1);
      EventsStay(ss[k - 1], steps[k - 1]);
      var n := TakenStep(ss[k - 1], steps[k - 1], e);
      TakenByWaits(ss, steps, k - 1, e);
      if n.Some? { GrownByOne(Answered(ss[k - 1], e), n.value); }
    }
  }

  /**
    Every signal ever given to an auto-reset event has satisfied exactly one wait, a plain one or a call of `waitAny` that returns
    this event, or was cleared by `reset`, or is still stored.
  */
  lemma EverySignalIsUsedOnce(ss: seq<State>, steps: seq<Step>, k: nat, e: EventId)
    requires IsRun(ss, steps) && k < |ss| && e < |ss[k].events| && ss[k].events[e].auto && ss[k].events[e].setter.None?
    ensures ss[k].events[e].given == PlainWaits(ss, steps, k, e) + |Answered(ss[k], e)| + ss[k].events[e].cleared
                                     + (if ss[k].events[e].isSet then 1 else 0)
    ensures forall d: EventId :: d != e ==> Answered(ss[k], d) !! Answered(ss[k], e)
  {
    SignalsAreConserved(ss, steps, k, e);
    TakenByWaits(ss, steps, k, e);
  }
}
