/**
  The fiber runtime as a step machine.

  Worker threads share one pool of fibers. Every critical section of a boost::mutex is one atomic
  step; a context switch and the release of a fiber's `_isLocked` flag are steps of their own. An
  event's mutex is held across the several steps of `set`, a notifier's mutex across the
  registration steps of `waitAny`.

  The fields `place`, `runner`, `arrivals`, `released`, `given`, `taken`, `cleared` and `answers` are
  auxiliary: they record where a fiber is registered and what happened so far, and no step is enabled
  or chosen by reading them.
*/
module FiberModel {
  import opened Basics

  type FiberId = nat
  type WorkerId = nat
  type EventId = nat
  type MutexId = nat
  type NotifierId = nat

  /** Why a fiber has handed itself over and is switching, or has switched, back to a root fiber. */
  datatype Wait = Finished | Yielded | OnEvent(e: EventId) | OnMutex(m: MutexId) | OnAny(n: NotifierId)

  /** Where a fiber's own code stands. */
  datatype Pc =
    | User
    | Parked(why: Wait)
    | Setting(e: EventId)
    | Registering(n: NotifierId, i: nat)
    | RollingBack(n: NotifierId, i: nat, j: nat)
    | Cancelling(n: NotifierId, j: nat)

  /** The one place that can give a parked fiber back to a worker. */
  datatype Place =
    | Nowhere
    | InIdle
    | InReady
    | InIdleHand(w: WorkerId)
    | InReadyHand(w: WorkerId)
    | InEvent(e: EventId)
    | InMutex(m: MutexId)
    | InNotifier(n: NotifierId)

  datatype Fiber = Fiber(locked: bool, pc: Pc, place: Place, runner: Option<WorkerId>)

  datatype Pass = First | Last

  /** Where a root fiber stands inside `Worker::exec`; `failed` is its local fibersNotActivated. */
  datatype Mode =
    | Outside
    | ReadyPass(pass: Pass, failed: seq<FiberId>)
    | ReadyHand(pass: Pass, failed: seq<FiberId>, f: FiberId)
    | ReadyPutBack(pass: Pass, failed: seq<FiberId>)
    | TakeTask(failed: seq<FiberId>)
    | TakeIdle(failed: seq<FiberId>, queued: bool)
    | Create(failed: seq<FiberId>, queued: bool)
    | IdleHand(failed: seq<FiberId>, queued: bool, f: FiberId)
    | NoFiber(failed: seq<FiberId>, queued: bool)
    | PutIdle(failed: seq<FiberId>)

  datatype Cpu = Root | Runs(f: FiberId) | Leaves(f: FiberId)
  datatype Worker = Worker(mode: Mode, cpu: Cpu)

  /** Who is in `set`; `done` says that only the erasing is left. */
  datatype Setter = Setter(owner: FiberId, all: bool, woke: bool, done: bool)

  /** `_mnWaiters` is `visited + anyWaiters`: the entries that a `set` in progress has passed, and the others. */
  datatype Event = Event(auto: bool, isSet: bool, waiters: seq<FiberId>, visited: seq<NotifierId>, anyWaiters: seq<NotifierId>,
                         setter: Option<Setter>, given: nat, taken: nat, cleared: nat)
  datatype Mutex = Mutex(owners: seq<FiberId>, arrivals: seq<FiberId>, released: nat)
  datatype Notifier = Notifier(initiator: FiberId, events: seq<EventId>, key: Option<EventId>,
                               locked: bool, answers: nat)

  datatype State = State(
    maxFibers: nat,
    workers: seq<Worker>,
    fibers: seq<Fiber>,
    total: nat,
    idle: set<FiberId>,
    ready: seq<FiberId>,
    tasks: nat,
    events: seq<Event>,
    mutexes: seq<Mutex>,
    notifiers: seq<Notifier>)

  // ----- pieces of steps -----

  function SetPc(s: State, f: FiberId, pc: Pc): State
    requires f < |s.fibers|
  {
    s.(fibers := s.fibers[f := s.fibers[f].(pc := pc)])
  }

  function SetPlace(s: State, f: FiberId, p: Place): State
    requires f < |s.fibers|
  {
    s.(fibers := s.fibers[f := s.fibers[f].(place := p)])
  }

  function Park(s: State, f: FiberId, why: Wait, p: Place): State
    requires f < |s.fibers|
  {
    s.(fibers := s.fibers[f := s.fibers[f].(pc := Parked(why), place := p)])
  }

  function SetMode(s: State, w: WorkerId, mode: Mode): State
    requires w < |s.workers|
  {
    s.(workers := s.workers[w := s.workers[w].(mode := mode)])
  }

  function SetCpu(s: State, w: WorkerId, mode: Mode, cpu: Cpu): State
    requires w < |s.workers|
  {
    s.(workers := s.workers[w := Worker(mode, cpu)])
  }

  /** `Worker::fiberReady`. */
  function Wake(s: State, f: FiberId): State
    requires f < |s.fibers|
  {
    SetPlace(s, f, InReady).(ready := s.ready + [f])
  }

  function PlaceAll(fibers: seq<Fiber>, fs: seq<FiberId>, p: Place): (r: seq<Fiber>) {
    seq(|fibers|, i requires 0 <= i < |fibers| => if i in fs then fibers[i].(place := p) else fibers[i])
  }

  /** What a fiber does when a worker has switched to it: a `waitAny` starts to cancel, others return. */
  function Resumed(why: Wait): Pc {
    if why.OnAny? then Cancelling(why.n, 0) else User
  }

  /** `Fiber::activate` after a successful `enter`: the flag is up, the fiber is current on w. */
  function Switch(s: State, w: WorkerId, f: FiberId, back: Mode, pc: Pc): State
    requires w < |s.workers| && f < |s.fibers|
  {
    SetCpu(s, w, back, Runs(f)).(
      fibers := s.fibers[f := Fiber(true, pc, Nowhere, Some(w))])
  }

  // ----- steps of a root fiber: worker.cpp -----

  predicate AtRoot(s: State, w: WorkerId) {
    w < |s.workers| && s.workers[w].cpu.Root?
  }

  function ExecStart(s: State, w: WorkerId): Option<State> {
    if AtRoot(s, w) && s.workers[w].mode.Outside? then Some(SetMode(s, w, ReadyPass(First, []))) else None
  }

  function PopReady(s: State, w: WorkerId): Option<State> {
    if AtRoot(s, w) && s.workers[w].mode.ReadyPass? && s.ready != [] && s.ready[0] < |s.fibers| then
      var m := s.workers[w].mode;
      Some(SetMode(SetPlace(s, s.ready[0], InReadyHand(w)), w, ReadyHand(m.pass, m.failed, s.ready[0]))
           .(ready := s.ready[1..]))
    else None
  }

  /** Where `exec` goes after a call of `processReadyFibers` that returned `all`. */
  function AfterPass(pass: Pass, all: bool): Mode {
    if pass.First? then TakeTask([]) else if all then Outside else ReadyPass(Last, [])
  }

  function ReadyEmpty(s: State, w: WorkerId): Option<State> {
    if AtRoot(s, w) && s.workers[w].mode.ReadyPass? && s.ready == [] then
      var m := s.workers[w].mode;
      Some(SetMode(s, w, if m.failed == [] then AfterPass(m.pass, true) else ReadyPutBack(m.pass, m.failed)))
    else None
  }

  function PutBackReady(s: State, w: WorkerId): Option<State> {
    if AtRoot(s, w) && s.workers[w].mode.ReadyPutBack? then
      var m := s.workers[w].mode;
      Some(SetMode(s, w, AfterPass(m.pass, false)).(
        ready := s.ready + m.failed, fibers := PlaceAll(s.fibers, m.failed, InReady)))
    else None
  }

  function EnterReady(s: State, w: WorkerId): Option<State> {
    if AtRoot(s, w) && s.workers[w].mode.ReadyHand? && s.workers[w].mode.f < |s.fibers|
       && s.fibers[s.workers[w].mode.f].pc.Parked? then
      var m := s.workers[w].mode;
      if s.fibers[m.f].locked then Some(SetMode(s, w, ReadyPass(m.pass, m.failed + [m.f])))
      else Some(Switch(s, w, m.f, ReadyPass(m.pass, m.failed), Resumed(s.fibers[m.f].pc.why)))
    else None
  }

  function PopTask(s: State, w: WorkerId): Option<State> {
    if AtRoot(s, w) && s.workers[w].mode.TakeTask? then
      Some(SetMode(s, w, TakeIdle(s.workers[w].mode.failed, s.tasks > 0))
           .(tasks := if s.tasks > 0 then s.tasks - 1 else 0))
    else None
  }

  function PopIdle(s: State, w: WorkerId, f: FiberId): Option<State> {
    if AtRoot(s, w) && s.workers[w].mode.TakeIdle? && f in s.idle && f < |s.fibers| then
      var m := s.workers[w].mode;
      Some(SetMode(SetPlace(s, f, InIdleHand(w)), w, IdleHand(m.failed, m.queued, f)).(idle := s.idle - {f}))
    else None
  }

  function IdleEmpty(s: State, w: WorkerId): Option<State> {
    if AtRoot(s, w) && s.workers[w].mode.TakeIdle? && s.idle == {} then
      var m := s.workers[w].mode;
      Some(SetMode(s, w, if s.total < s.maxFibers then Create(m.failed, m.queued) else NoFiber(m.failed, m.queued)))
    else None
  }

  /** The limit was read in an earlier critical section; creation may also fail. */
  function CreateFiber(s: State, w: WorkerId, ok: bool): Option<State> {
    if AtRoot(s, w) && s.workers[w].mode.Create? then
      var m := s.workers[w].mode;
      if ok then
        Some(SetMode(s, w, IdleHand(m.failed, m.queued, |s.fibers|)).(
          fibers := s.fibers + [Fiber(false, Parked(Finished), InIdleHand(w), None)], total := s.total + 1))
      else Some(SetMode(s, w, NoFiber(m.failed, m.queued)))
    else None
  }

  /** `Fiber::execute`; a task taken from the queue is dropped when the fiber is still locked. */
  function EnterIdle(s: State, w: WorkerId): Option<State> {
    if AtRoot(s, w) && s.workers[w].mode.IdleHand? && s.workers[w].mode.f < |s.fibers| then
      var m := s.workers[w].mode;
      if s.fibers[m.f].locked then Some(SetMode(s, w, TakeTask(m.failed + [m.f])))
      else Some(Switch(s, w, m.f, if m.queued then TakeTask(m.failed) else PutIdle(m.failed), User))
    else None
  }

  function QueueTask(s: State, w: WorkerId): Option<State> {
    if AtRoot(s, w) && s.workers[w].mode.NoFiber? then
      var m := s.workers[w].mode;
      Some(SetMode(s, w, PutIdle(m.failed)).(tasks := s.tasks + (if m.queued then 2 else 1)))
    else None
  }

  function PutBackIdle(s: State, w: WorkerId): Option<State> {
    if AtRoot(s, w) && s.workers[w].mode.PutIdle? then
      var m := s.workers[w].mode;
      Some(SetMode(s, w, ReadyPass(Last, [])).(
        idle := s.idle + (set f | f in m.failed), fibers := PlaceAll(s.fibers, m.failed, InIdle)))
    else None
  }

  /** The root fiber is back after a context switch and lowers the flag: `Fiber::leave`. */
  function LeaveFiber(s: State, w: WorkerId): Option<State> {
    if w < |s.workers| && s.workers[w].cpu.Leaves? && s.workers[w].cpu.f < |s.fibers| then
      var f := s.workers[w].cpu.f;
      Some(SetCpu(s, w, s.workers[w].mode, Root).(
        fibers := s.fibers[f := s.fibers[f].(locked := false, runner := None)]))
    else None
  }

  // ----- steps of a running fiber -----

  predicate Running(s: State, w: WorkerId) {
    w < |s.workers| && s.workers[w].cpu.Runs? && s.workers[w].cpu.f < |s.fibers|
  }

  function Current(s: State, w: WorkerId): (f: FiberId)
    requires Running(s, w)
    ensures f < |s.fibers|
  {
    s.workers[w].cpu.f
  }

  predicate InUser(s: State, w: WorkerId) {
    Running(s, w) && s.fibers[Current(s, w)].pc.User?
  }

  /** The switch to the root fiber inside `fiberYield` and `fiberExecuted`. */
  function SwitchOut(s: State, w: WorkerId): Option<State> {
    if Running(s, w) && s.fibers[Current(s, w)].pc.Parked? then
      Some(SetCpu(s, w, s.workers[w].mode, Leaves(Current(s, w))))
    else None
  }

  function Finish(s: State, w: WorkerId): Option<State> {
    if InUser(s, w) then
      Some(Park(s, Current(s, w), Finished, InIdle).(idle := s.idle + {Current(s, w)}))
    else None
  }

  function Yield(s: State, w: WorkerId): Option<State> {
    if InUser(s, w) then
      Some(Park(s, Current(s, w), Yielded, InReady).(ready := s.ready + [Current(s, w)]))
    else None
  }

  // ----- mutex.cpp -----

  function PutMutex(s: State, m: MutexId, mx: Mutex): State
    requires m < |s.mutexes|
  {
    s.(mutexes := s.mutexes[m := mx])
  }

  /** A fiber that already stands in `_owners` must not lock again. */
  function Lock(s: State, w: WorkerId, m: MutexId): Option<State> {
    if InUser(s, w) && m < |s.mutexes| && Current(s, w) !in s.mutexes[m].owners then
      var f, mx := Current(s, w), s.mutexes[m];
      var s1 := PutMutex(s, m, mx.(owners := mx.owners + [f], arrivals := mx.arrivals + [f]));
      Some(if mx.owners == [] then s1 else Park(s1, f, OnMutex(m), InMutex(m)))
    else None
  }

  function TryLock(s: State, w: WorkerId, m: MutexId): Option<State> {
    if InUser(s, w) && m < |s.mutexes| then
      var f, mx := Current(s, w), s.mutexes[m];
      Some(if mx.owners == [] then PutMutex(s, m, mx.(owners := [f], arrivals := mx.arrivals + [f])) else s)
    else None
  }

  /** Unlock by the holder: the next owner in line, if any, becomes ready. */
  function Unlock(s: State, w: WorkerId, m: MutexId): Option<State> {
    if InUser(s, w) && m < |s.mutexes| && s.mutexes[m].owners != [] && s.mutexes[m].owners[0] == Current(s, w)
       && (|s.mutexes[m].owners| > 1 ==> s.mutexes[m].owners[1] < |s.fibers|) then
      var mx := s.mutexes[m];
      var s1 := PutMutex(s, m, mx.(owners := mx.owners[1..], released := mx.released + 1));
      Some(if |mx.owners| > 1 then Wake(s1, mx.owners[1]) else s1)
    else None
  }

  // ----- event.cpp: plain waits, set, reset -----

  function PutEvent(s: State, e: EventId, ev: Event): State
    requires e < |s.events|
  {
    s.(events := s.events[e := ev])
  }

  predicate Free(s: State, e: EventId) {
    e < |s.events| && s.events[e].setter.None?
  }

  /** An event found set: an auto-reset one is consumed. */
  function Consume(ev: Event): Event {
    if ev.auto then ev.(isSet := false, taken := ev.taken + 1) else ev
  }

  function WaitEvent(s: State, w: WorkerId, e: EventId): Option<State> {
    if InUser(s, w) && Free(s, e) then
      var f, ev := Current(s, w), s.events[e];
      Some(if ev.isSet then PutEvent(s, e, Consume(ev))
           else Park(PutEvent(s, e, ev.(waiters := ev.waiters + [f])), f, OnEvent(e), InEvent(e)))
    else None
  }

  function Reset(s: State, w: WorkerId, e: EventId): Option<State> {
    if InUser(s, w) && Free(s, e) then
      var ev := s.events[e];
      Some(if ev.isSet then PutEvent(s, e, ev.(waiters := [], isSet := false, cleared := ev.cleared + 1)) else s)
    else None
  }

  /** `set` takes the event's mutex; set(true) on an auto-reset event only without `waitAny` waiters. */
  function SetBegin(s: State, w: WorkerId, e: EventId, all: bool): Option<State> {
    if InUser(s, w) && Free(s, e) && (s.events[e].auto && all ==> s.events[e].anyWaiters == []) then
      var f, ev := Current(s, w), s.events[e];
      Some(if ev.isSet then s
           else SetPc(PutEvent(s, e, ev.(isSet := !ev.auto, setter := Some(Setter(f, all, false, false)), given := ev.given + 1)),
                      f, Setting(e)))
    else None
  }

  predicate InSet(s: State, w: WorkerId) {
    && Running(s, w) && s.fibers[Current(s, w)].pc.Setting?
    && s.fibers[Current(s, w)].pc.e < |s.events|
    && s.events[s.fibers[Current(s, w)].pc.e].setter.Some?
  }

  function SetTarget(s: State, w: WorkerId): (e: EventId)
    requires InSet(s, w)
    ensures e < |s.events| && s.events[e].setter.Some?
  {
    s.fibers[Current(s, w)].pc.e
  }

  /** An auto-reset set(false) is over with its first success. */
  predicate SetIsOver(ev: Event) {
    ev.auto && ev.setter.Some? && !ev.setter.value.all
  }

  /** The event after it has woken someone; a broadcast hands out a further signal each time. */
  function Delivered(ev: Event, setter: Option<Setter>): Event
    requires ev.setter.Some?
  {
    ev.(setter := setter,
        taken := if ev.auto then ev.taken + 1 else ev.taken,
        given := if ev.setter.value.woke then ev.given + 1 else ev.given)
  }

  /** Setter st has woken someone. */
  function Woke(st: Setter, over: bool): Setter {
    st.(woke := true, done := over)
  }

  /**
    One turn of the loop over `_mnWaiters`: `notifyReady` needs the notifier's mutex. The entry is passed, and erased later, when
    the initiator may already be running.
  */
  function SetNotify(s: State, w: WorkerId): Option<State> {
    if InSet(s, w) && !s.events[SetTarget(s, w)].setter.value.done && s.events[SetTarget(s, w)].anyWaiters != []
       && s.events[SetTarget(s, w)].anyWaiters[0] < |s.notifiers|
       && !s.notifiers[s.events[SetTarget(s, w)].anyWaiters[0]].locked
       && s.notifiers[s.events[SetTarget(s, w)].anyWaiters[0]].initiator < |s.fibers| then
      var e := SetTarget(s, w);
      var n := s.events[e].anyWaiters[0];
      var ev := s.events[e].(anyWaiters := s.events[e].anyWaiters[1..], visited := s.events[e].visited + [n]);
      var nt := s.notifiers[n];
      if nt.key.Some? then Some(PutEvent(s, e, ev))
      else
        Some(Wake(PutEvent(s, e, Delivered(ev, Some(Woke(ev.setter.value, SetIsOver(ev))))), nt.initiator)
             .(notifiers := s.notifiers[n := nt.(key := Some(e), answers := nt.answers + 1)]))
    else None
  }

  /** The entries that have been passed are erased: at the end of the loop, or after the success that ends an auto-reset set(false). */
  function SetClear(s: State, w: WorkerId): Option<State> {
    if InSet(s, w) && s.events[SetTarget(s, w)].setter.value.done then
      var e := SetTarget(s, w);
      Some(SetPc(PutEvent(s, e, s.events[e].(visited := [], setter := None)), Current(s, w), User))
    else if InSet(s, w) && s.events[SetTarget(s, w)].anyWaiters == [] && s.events[SetTarget(s, w)].visited != [] then
      var e := SetTarget(s, w);
      Some(PutEvent(s, e, s.events[e].(visited := [])))
    else None
  }

  /** The loop over `_mnWaiters` is over. */
  predicate NotifiersPassed(s: State, w: WorkerId) {
    InSet(s, w) && !s.events[SetTarget(s, w)].setter.value.done
    && s.events[SetTarget(s, w)].anyWaiters == [] && s.events[SetTarget(s, w)].visited == []
  }

  /** One turn of the loop over `_waiters`. */
  function SetWake(s: State, w: WorkerId): Option<State> {
    if NotifiersPassed(s, w) && s.events[SetTarget(s, w)].waiters != []
       && s.events[SetTarget(s, w)].waiters[0] < |s.fibers| then
      var f, e := Current(s, w), SetTarget(s, w);
      var ev := s.events[e].(waiters := s.events[e].waiters[1..]);
      var setter := if SetIsOver(ev) then None else Some(Woke(ev.setter.value, false));
      var s1 := Wake(PutEvent(s, e, Delivered(ev, setter)), s.events[e].waiters[0]);
      Some(if SetIsOver(ev) then SetPc(s1, f, User) else s1)
    else None
  }

  function SetEnd(s: State, w: WorkerId): Option<State> {
    if NotifiersPassed(s, w) && s.events[SetTarget(s, w)].waiters == [] then
      var f, e := Current(s, w), SetTarget(s, w);
      var ev := s.events[e];
      Some(SetPc(PutEvent(s, e, ev.(setter := None, isSet := ev.isSet || !ev.setter.value.woke)), f, User))
    else None
  }

  // ----- event.cpp: waitAny -----

  function PutNotifier(s: State, n: NotifierId, nt: Notifier): State
    requires n < |s.notifiers|
  {
    s.(notifiers := s.notifiers[n := nt])
  }

  /** `waitAny` over distinct events locks a fresh notifier. */
  function AnyBegin(s: State, w: WorkerId, es: seq<EventId>): Option<State> {
    if InUser(s, w) && NoDup(es) && (forall e :: e in es ==> e < |s.events|) then
      var f := Current(s, w);
      Some(SetPc(s, f, Registering(|s.notifiers|, 0))
           .(notifiers := s.notifiers + [Notifier(f, es, None, true, 0)]))
    else None
  }

  /** `mnWait` on the next event, or the end of the registration. */
  function AnyRegister(s: State, w: WorkerId): Option<State> {
    if Running(s, w) && s.fibers[Current(s, w)].pc.Registering? && s.fibers[Current(s, w)].pc.n < |s.notifiers| then
      var f := Current(s, w);
      var n, i := s.fibers[f].pc.n, s.fibers[f].pc.i;
      var nt := s.notifiers[n];
      if i < |nt.events| then
        var e := nt.events[i];
        if !Free(s, e) then None
        else if s.events[e].isSet then
          Some(SetPc(PutNotifier(PutEvent(s, e, Consume(s.events[e])), n,
                                 nt.(key := Some(e), locked := false, answers := nt.answers + 1)),
                     f, RollingBack(n, i, 0)))
        else
          Some(SetPc(PutEvent(s, e, s.events[e].(anyWaiters := s.events[e].anyWaiters + [n])),
                     f, Registering(n, i + 1)))
      else Some(Park(PutNotifier(s, n, nt.(locked := false)), f, OnAny(n), InNotifier(n)))
    else None
  }

  /** `mnCancel`. */
  function Cancel(ev: Event, n: NotifierId): Event {
    ev.(anyWaiters := RemoveFirst(ev.anyWaiters, n))
  }

  /** The two loops that cancel registrations, one event a step, and the return to user code. */
  function AnyRollBack(s: State, w: WorkerId): Option<State> {
    if Running(s, w) && s.fibers[Current(s, w)].pc.RollingBack? && s.fibers[Current(s, w)].pc.n < |s.notifiers| then
      var f := Current(s, w);
      var n, i, j := s.fibers[f].pc.n, s.fibers[f].pc.i, s.fibers[f].pc.j;
      var nt := s.notifiers[n];
      if j < i && j < |nt.events| then
        if !Free(s, nt.events[j]) then None
        else Some(SetPc(PutEvent(s, nt.events[j], Cancel(s.events[nt.events[j]], n)), f, RollingBack(n, i, j + 1)))
      else Some(SetPc(s, f, User))
    else None
  }

  function AnyCancel(s: State, w: WorkerId): Option<State> {
    if Running(s, w) && s.fibers[Current(s, w)].pc.Cancelling? && s.fibers[Current(s, w)].pc.n < |s.notifiers| then
      var f := Current(s, w);
      var n, j := s.fibers[f].pc.n, s.fibers[f].pc.j;
      var nt := s.notifiers[n];
      if j < |nt.events| then
        if nt.key == Some(nt.events[j]) then Some(SetPc(s, f, Cancelling(n, j + 1)))
        else if !Free(s, nt.events[j]) then None
        else Some(SetPc(PutEvent(s, nt.events[j], Cancel(s.events[nt.events[j]], n)), f, Cancelling(n, j + 1)))
      else Some(SetPc(s, f, User))
    else None
  }

  // ----- the machine -----

  datatype Op =
    | OpExecStart | OpPopReady | OpReadyEmpty | OpPutBackReady | OpEnterReady
    | OpPopTask | OpPopIdle(f: FiberId) | OpIdleEmpty | OpCreateFiber(ok: bool) | OpEnterIdle
    | OpQueueTask | OpPutBackIdle | OpLeaveFiber
    | OpSwitchOut | OpFinish | OpYield
    | OpLock(m: MutexId) | OpTryLock(m: MutexId) | OpUnlock(m: MutexId)
    | OpWait(e: EventId) | OpReset(e: EventId) | OpSetBegin(e: EventId, all: bool)
    | OpSetNotify | OpSetClear | OpSetWake | OpSetEnd
    | OpAnyBegin(es: seq<EventId>) | OpAnyRegister | OpAnyRollBack | OpAnyCancel

  datatype Step = Step(w: WorkerId, op: Op)

  /** The state after worker `st.w` performs `st.op`, or None when it cannot. */
  function Next(s: State, st: Step): Option<State> {
    match st.op
    case OpExecStart => ExecStart(s, st.w)
    case OpPopReady => PopReady(s, st.w)
    case OpReadyEmpty => ReadyEmpty(s, st.w)
    case OpPutBackReady => PutBackReady(s, st.w)
    case OpEnterReady => EnterReady(s, st.w)
    case OpPopTask => PopTask(s, st.w)
    case OpPopIdle(f) => PopIdle(s, st.w, f)
    case OpIdleEmpty => IdleEmpty(s, st.w)
    case OpCreateFiber(ok) => CreateFiber(s, st.w, ok)
    case OpEnterIdle => EnterIdle(s, st.w)
    case OpQueueTask => QueueTask(s, st.w)
    case OpPutBackIdle => PutBackIdle(s, st.w)
    case OpLeaveFiber => LeaveFiber(s, st.w)
    case OpSwitchOut => SwitchOut(s, st.w)
    case OpFinish => Finish(s, st.w)
    case OpYield => Yield(s, st.w)
    case OpLock(m) => Lock(s, st.w, m)
    case OpTryLock(m) => TryLock(s, st.w, m)
    case OpUnlock(m) => Unlock(s, st.w, m)
    case OpWait(e) => WaitEvent(s, st.w, e)
    case OpReset(e) => Reset(s, st.w, e)
    case OpSetBegin(e, all) => SetBegin(s, st.w, e, all)
    case OpSetNotify => SetNotify(s, st.w)
    case OpSetClear => SetClear(s, st.w)
    case OpSetWake => SetWake(s, st.w)
    case OpSetEnd => SetEnd(s, st.w)
    case OpAnyBegin(es) => AnyBegin(s, st.w, es)
    case OpAnyRegister => AnyRegister(s, st.w)
    case OpAnyRollBack => AnyRollBack(s, st.w)
    case OpAnyCancel => AnyCancel(s, st.w)
  }

  /** A fresh pool: W workers outside `exec`, no fiber yet, events unset, mutexes free. */
  predicate Initial(s: State) {
    && |s.workers| > 0
    && (forall w :: 0 <= w < |s.workers| ==> s.workers[w] == Worker(Outside, Root))
    && s.fibers == [] && s.total == 0 && s.idle == {} && s.ready == [] && s.notifiers == []
    && (forall e :: 0 <= e < |s.events| ==> s.events[e] == Event(s.events[e].auto, false, [], [], [], None, 0, 0, 0))
    && (forall m :: 0 <= m < |s.mutexes| ==> s.mutexes[m] == Mutex([], [], 0))
  }

  /** ss is a run: ss[0] is initial and each state follows from the one before by the next step. */
  predicate IsRun(ss: seq<State>, steps: seq<Step>) {
    && |ss| == |steps| + 1
    && Initial(ss[0])
    && forall k :: 0 <= k < |steps| ==> Next(ss[k], steps[k]) == Some(ss[k + 1])
  }
}
