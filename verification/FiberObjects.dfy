/**
  The synchronization objects of the fiber runtime as their methods change them: one call is one
  critical section of the object, with its loops. What a call does not do on its own, giving up the
  processor, is reported to the caller as `park`.
*/
module FiberObjects {
  import opened Basics
  import FiberModel

  type FiberId = FiberModel.FiberId

  /** The shared queue of ready fibers. */
  class FiberPool {
    var ready: seq<FiberId>

    constructor ()
      ensures ready == []
    {
      ready := [];
    }

    method FiberReady(f: FiberId)
      modifies `ready
      ensures ready == old(ready) + [f]
    {
      ready := ready + [f];
    }
  }

  class MultiNotifier {
    const initiator: FiberId
    var readyKey: Option<nat>

    constructor (f: FiberId)
      ensures initiator == f && readyKey == None
    {
      initiator := f;
      readyKey := None;
    }

    method NotifyReady(key: nat, pool: FiberPool) returns (fired: bool)
      modifies `readyKey, pool`ready
      ensures fired == old(readyKey).None?
      ensures readyKey == if fired then Some(key) else old(readyKey)
      ensures pool.ready == if fired then old(pool.ready) + [initiator] else old(pool.ready)
    {
      if readyKey.Some? {
        return false;
      }
      readyKey := Some(key);
      pool.FiberReady(initiator);
      return true;
    }
  }

  datatype Marked = Marked(pmn: MultiNotifier, key: nat)

  ghost function Notifiers(ms: seq<Marked>): set<MultiNotifier> {
    set m | m in ms :: m.pmn
  }

  /** The key of the first entry of notifier p. */
  ghost function FirstKey(ms: seq<Marked>, p: MultiNotifier): Option<nat> {
    if ms == [] then None
    else
      var last, first := ms[|ms| - 1], FirstKey(ms[..|ms| - 1], p);
      if first.None? && last.pmn == p then Some(last.key) else first
  }

  /** The initiators whose notifier has not fired, in the order of their first entries. */
  ghost function Unfired(ms: seq<Marked>): seq<FiberId>
    reads Notifiers(ms)
  {
    if ms == [] then []
    else
      var last, init := ms[|ms| - 1], ms[..|ms| - 1];
      assert last in ms;
      assert Notifiers(init) <= Notifiers(ms);
      Unfired(init) + (if last.pmn.readyKey.None? && FirstKey(init, last.pmn).None? then [last.pmn.initiator] else [])
  }

  lemma {:induction false} NoFirstKey(ms: seq<Marked>, p: MultiNotifier)
    requires forall j :: 0 <= j < |ms| ==> ms[j].pmn != p
    ensures FirstKey(ms, p).None?
  {
    if ms != [] { NoFirstKey(ms[..|ms| - 1], p); }
  }

  /** Entry k is the first one of its notifier. */
  ghost predicate IsFirst(ms: seq<Marked>, k: nat) {
    k < |ms| && forall j :: 0 <= j < k ==> ms[j].pmn != ms[k].pmn
  }

  lemma {:induction false} FirstKeyIs(ms: seq<Marked>, k: nat)
    requires IsFirst(ms, k)
    ensures FirstKey(ms, ms[k].pmn) == Some(ms[k].key)
  {
    var init := ms[..|ms| - 1];
    if k < |init| {
      assert IsFirst(init, k);
      FirstKeyIs(init, k);
    } else {
      NoFirstKey(init, ms[k].pmn);
    }
  }

  /** Every unfired notifier has its place among the initiators, behind those that come first before it. */
  lemma {:induction false} UnfiredAt(ms: seq<Marked>, k: nat)
    requires IsFirst(ms, k) && ms[k].pmn.readyKey.None?
    ensures |Unfired(ms[..k])| < |Unfired(ms)| && Unfired(ms)[|Unfired(ms[..k])|] == ms[k].pmn.initiator
  {
    var init := ms[..|ms| - 1];
    if k < |init| {
      assert IsFirst(init, k) && init[..k] == ms[..k];
      UnfiredAt(init, k);
    } else {
      assert ms[..k] == init;
      FirstOrNot(ms);
    }
  }

  /** And every place belongs to one. */
  lemma {:induction false} UnfiredFrom(ms: seq<Marked>, i: nat) returns (k: nat)
    requires i < |Unfired(ms)|
    ensures IsFirst(ms, k) && ms[k].pmn.readyKey.None? && |Unfired(ms[..k])| == i
  {
    var init := ms[..|ms| - 1];
    if i < |Unfired(init)| {
      k := UnfiredFrom(init, i);
      assert ms[..k] == init[..k];
    } else {
      k := |ms| - 1;
      FirstOrNot(ms);
    }
  }

  /** The last entry is the first one of its notifier exactly when the others have none of it. */
  lemma FirstOrNot(ms: seq<Marked>)
    requires ms != []
    ensures FirstKey(ms[..|ms| - 1], ms[|ms| - 1].pmn).None? <==> IsFirst(ms, |ms| - 1)
  {
    var init, p := ms[..|ms| - 1], ms[|ms| - 1].pmn;
    if IsFirst(ms, |ms| - 1) {
      NoFirstKey(init, p);
    } else {
      var j :| 0 <= j < |init| && ms[j].pmn == p;
      EntryBefore(init, p, j);
    }
  }

  lemma {:induction false} EntryBefore(ms: seq<Marked>, p: MultiNotifier, j: nat)
    requires j < |ms| && ms[j].pmn == p
    ensures FirstKey(ms, p).Some?
  {
    if j < |ms| - 1 { EntryBefore(ms[..|ms| - 1], p, j); }
  }

  /** The list without the first entry of notifier p, as `mnCancel` leaves it. */
  ghost function Without(ms: seq<Marked>, p: MultiNotifier): seq<Marked> {
    if ms == [] then [] else if ms[0].pmn == p then ms[1..] else [ms[0]] + Without(ms[1..], p)
  }

  /** The entries of the other notifiers. */
  ghost function Others(ms: seq<Marked>, p: MultiNotifier): seq<Marked> {
    if ms == [] then [] else (if ms[0].pmn == p then [] else [ms[0]]) + Others(ms[1..], p)
  }

  /** How many entries p has. */
  ghost function Entries(ms: seq<Marked>, p: MultiNotifier): nat {
    if ms == [] then 0 else (if ms[0].pmn == p then 1 else 0) + Entries(ms[1..], p)
  }

  function Drop(a: nat, b: nat): nat {
    if a <= b then 0 else a - b
  }

  lemma {:induction false} WithoutAt(ms: seq<Marked>, p: MultiNotifier, i: nat)
    requires i < |ms| && ms[i].pmn == p && forall j :: 0 <= j < i ==> ms[j].pmn != p
    ensures Without(ms, p) == ms[..i] + ms[i + 1..]
  {
    if i > 0 {
      WithoutAt(ms[1..], p, i - 1);
      assert ms[1..][..i - 1] == ms[1..i];
      assert [ms[0]] + ms[1..i] == ms[..i];
    }
  }

  lemma {:induction false} WithoutAbsent(ms: seq<Marked>, p: MultiNotifier)
    requires forall j :: 0 <= j < |ms| ==> ms[j].pmn != p
    ensures Without(ms, p) == ms
  {
    if ms != [] {
      WithoutAbsent(ms[1..], p);
    }
  }

  /** A cancellation takes one entry off, if there is one, and leaves the other notifiers as they stand. */
  lemma {:induction false} WithoutKeepsOthers(ms: seq<Marked>, p: MultiNotifier)
    ensures Others(Without(ms, p), p) == Others(ms, p)
    ensures Entries(Without(ms, p), p) == Drop(Entries(ms, p), 1)
  {
    if ms != [] && ms[0].pmn != p {
      WithoutKeepsOthers(ms[1..], p);
      var w := Without(ms, p);
      assert w[0] == ms[0] && w[1..] == Without(ms[1..], p);
    }
  }

  lemma {:induction false} OnlyOthers(ms: seq<Marked>, p: MultiNotifier)
    requires Entries(ms, p) == 0
    ensures Others(ms, p) == ms
  {
    if ms != [] { OnlyOthers(ms[1..], p); }
  }

  /** Their entries are those of the others, and there are as many as are not p's. */
  lemma {:induction false} OthersAre(ms: seq<Marked>, p: MultiNotifier)
    ensures forall m :: m in Others(ms, p) <==> m in ms && m.pmn != p
    ensures |Others(ms, p)| + Entries(ms, p) == |ms|
  {
    if ms != [] {
      OthersAre(ms[1..], p);
      assert ms == [ms[0]] + ms[1..];
    }
  }

  lemma {:induction false} PushedEntry(ms: seq<Marked>, p: MultiNotifier, key: nat)
    ensures Others(ms + [Marked(p, key)], p) == Others(ms, p)
    ensures Entries(ms + [Marked(p, key)], p) == Entries(ms, p) + 1
  {
    var all := ms + [Marked(p, key)];
    if ms == [] {
      assert all[1..] == [];
    } else {
      PushedEntry(ms[1..], p, key);
      assert all[0] == ms[0] && all[1..] == ms[1..] + [Marked(p, key)];
    }
  }

  class Event {
    const autoReset: bool
    var isSet: bool
    var waiters: seq<FiberId>
    var mnWaiters: seq<Marked>

    constructor (auto: bool)
      ensures autoReset == auto && !isSet && waiters == [] && mnWaiters == []
    {
      autoReset := auto;
      isSet := false;
      waiters := [];
      mnWaiters := [];
    }

    /** A set event has nobody waiting. */
    ghost predicate Valid()
      reads this
    {
      isSet ==> waiters == [] && mnWaiters == []
    }

    method Wait(f: FiberId) returns (park: bool)
      requires Valid()
      modifies this
      ensures Valid() && mnWaiters == old(mnWaiters)
      ensures park == !old(isSet)
      ensures isSet == (old(isSet) && !autoReset)
      ensures waiters == if park then old(waiters) + [f] else old(waiters)
    {
      if isSet {
        if autoReset {
          isSet := false;
        }
        return false;
      }
      waiters := waiters + [f];
      return true;
    }

    method Reset()
      requires Valid()
      modifies this
      ensures Valid() && !isSet && waiters == old(waiters) && mnWaiters == old(mnWaiters)
    {
      if isSet {
        waiters := [];
        isSet := false;
      }
    }

    method MnWait(mn: Marked) returns (pending: bool)
      requires Valid()
      modifies this
      ensures Valid() && waiters == old(waiters)
      ensures pending == !old(isSet)
      ensures isSet == (old(isSet) && !autoReset)
      ensures mnWaiters == if pending then old(mnWaiters) + [mn] else old(mnWaiters)
    {
      if isSet {
        if autoReset {
          isSet := false;
        }
        return false;
      }
      mnWaiters := mnWaiters + [mn];
      return true;
    }

    method MnCancel(pmn: MultiNotifier)
      requires Valid()
      modifies this
      ensures Valid() && waiters == old(waiters) && isSet == old(isSet)
      ensures mnWaiters == Without(old(mnWaiters), pmn)
      ensures Others(mnWaiters, pmn) == Others(old(mnWaiters), pmn)
      ensures Entries(mnWaiters, pmn) == Drop(Entries(old(mnWaiters), pmn), 1)
    {
      WithoutKeepsOthers(mnWaiters, pmn);
      var i := 0;
      while i < |mnWaiters|
        invariant 0 <= i <= |mnWaiters| && mnWaiters == old(mnWaiters)
        invariant forall j :: 0 <= j < i ==> mnWaiters[j].pmn != pmn
      {
        if mnWaiters[i].pmn == pmn {
          WithoutAt(mnWaiters, pmn, i);
          mnWaiters := mnWaiters[..i] + mnWaiters[i + 1..];
          return;
        }
        i := i + 1;
      }
      WithoutAbsent(mnWaiters, pmn);
    }

    /**
      A manual-reset event that was unset fires every live notifier and wakes every waiter, in order.
      set(false) on an auto-reset event wakes the first live notifier; failing that the first
      waiter; failing that it stays set. An event that is set is left alone. The behaviour of set(true)
      on an auto-reset event with a live notifier is not defined: its loop goes on with an iterator that
      `erase` has invalidated.
    */
    method Set(all: bool, pool: FiberPool) returns (defined: bool)
      requires Valid()
      modifies this, pool, Notifiers(mnWaiters)
      ensures defined == (old(isSet) || !autoReset || !all || old(Unfired(mnWaiters)) == [])
      ensures defined ==> Valid()
      ensures old(isSet) ==> isSet && pool.ready == old(pool.ready) && waiters == [] && mnWaiters == []
      ensures !old(isSet) && !autoReset ==>
                && isSet && pool.ready == old(pool.ready) + old(Unfired(mnWaiters)) + old(waiters)
                && forall m :: m in old(mnWaiters) ==>
                     m.pmn.readyKey == if old(m.pmn.readyKey).None? then FirstKey(old(mnWaiters), m.pmn) else old(m.pmn.readyKey)
      ensures !old(isSet) && autoReset && old(Unfired(mnWaiters)) == [] ==>
                && mnWaiters == [] && (forall m :: m in old(mnWaiters) ==> m.pmn.readyKey == old(m.pmn.readyKey))
                && isSet == (old(waiters) == [])
                && waiters == (if all || isSet then [] else old(waiters)[1..])
                && pool.ready == old(pool.ready) + old(waiters)[..|old(waiters)| - |waiters|]
      ensures !old(isSet) && autoReset && !all && old(Unfired(mnWaiters)) != [] ==>
                && !isSet && waiters == old(waiters)
                && pool.ready == old(pool.ready) + [old(Unfired(mnWaiters))[0]]
                && exists k :: 0 <= k < |old(mnWaiters)| && old(FirstLive(mnWaiters, k)) && FiredAt(old(mnWaiters), k)
                     && mnWaiters == old(mnWaiters)[k + 1..]
                     && (forall m :: m in old(mnWaiters) && m.pmn != old(mnWaiters)[k].pmn ==> m.pmn.readyKey == old(m.pmn.readyKey))
    {
      if isSet {
        return true;
      }
      if !autoReset {
        isSet := true;
        SetManual(pool);
        return true;
      }
      var fired, k := NotifyFirst(pool);
      if fired {
        return !all;
      }
      mnWaiters := [];
      var activated := WakeWaiters(all, pool);
      if !activated {
        isSet := true;
      }
      return true;
    }

    /** The loop over `_mnWaiters` in `set` on an auto-reset event, up to the first live notifier. */
    method NotifyLoop(pool: FiberPool) returns (fired: bool, i: nat)
      modifies this`mnWaiters, pool`ready, Notifiers(mnWaiters)`readyKey
      ensures i <= |old(mnWaiters)| && fired == (i < |old(mnWaiters)|)
      ensures forall j :: 0 <= j < i ==> old(mnWaiters[j].pmn.readyKey).Some?
      ensures forall j :: 0 <= j < |old(mnWaiters)| && !(fired && old(mnWaiters)[j].pmn == old(mnWaiters)[i].pmn) ==>
                old(mnWaiters)[j].pmn.readyKey == old(mnWaiters[j].pmn.readyKey)
      ensures !fired ==> mnWaiters == old(mnWaiters) && pool.ready == old(pool.ready)
      ensures fired ==>
                && old(mnWaiters[i].pmn.readyKey).None? && FiredAt(old(mnWaiters), i)
                && mnWaiters == old(mnWaiters)[i + 1..] && pool.ready == old(pool.ready) + [old(mnWaiters)[i].pmn.initiator]
    {
      ghost var ms := mnWaiters;
      i := 0;
      while i < |mnWaiters|
        invariant 0 <= i <= |mnWaiters| && mnWaiters == ms
        invariant pool.ready == old(pool.ready)
        invariant forall j :: 0 <= j < |ms| ==> ms[j].pmn.readyKey == old(ms[j].pmn.readyKey)
        invariant forall j :: 0 <= j < i ==> old(ms[j].pmn.readyKey).Some?
      {
        assert mnWaiters[i] in ms;
        fired := mnWaiters[i].pmn.NotifyReady(mnWaiters[i].key, pool);
        if fired {
          mnWaiters := mnWaiters[i + 1..];
          return;
        }
        i := i + 1;
      }
      fired := false;
    }

    /** What it comes to for the list of unfired initiators. */
    method NotifyFirst(pool: FiberPool) returns (fired: bool, ghost k: nat)
      modifies this`mnWaiters, pool`ready, Notifiers(mnWaiters)`readyKey
      ensures fired == (old(Unfired(mnWaiters)) != [])
      ensures !fired ==>
                && mnWaiters == old(mnWaiters) && pool.ready == old(pool.ready)
                && (forall m :: m in old(mnWaiters) ==> m.pmn.readyKey == old(m.pmn.readyKey))
      ensures fired ==>
                && old(FirstLive(mnWaiters, k)) && pool.ready == old(pool.ready) + [old(Unfired(mnWaiters))[0]]
                && mnWaiters == old(mnWaiters)[k + 1..] && FiredAt(old(mnWaiters), k)
                && (forall m :: m in old(mnWaiters) && m.pmn != old(mnWaiters)[k].pmn ==> m.pmn.readyKey == old(m.pmn.readyKey))
    {
      ghost var ms := mnWaiters;
      UnfiredFirst(ms);
      forall j | 0 <= j < |ms| ensures ms[j] in ms { }
      fired, k := NotifyLoop(pool);
      assert fired ==> old(FirstLive(ms, k));
    }

    /** The loop over `_waiters`: all of them, or only the first. */
    method WakeWaiters(all: bool, pool: FiberPool) returns (activated: bool)
      modifies this`waiters, pool
      ensures activated == (old(waiters) != [])
      ensures waiters == (if !all && activated then old(waiters)[1..] else [])
      ensures pool.ready == old(pool.ready) + old(waiters)[..|old(waiters)| - |waiters|]
    {
      activated := false;
      while waiters != []
        invariant |waiters| <= |old(waiters)| && waiters == old(waiters)[|old(waiters)| - |waiters|..]
        invariant pool.ready == old(pool.ready) + old(waiters)[..|old(waiters)| - |waiters|]
        invariant activated == (waiters != old(waiters))
        invariant activated ==> all
        decreases |waiters|
      {
        var f := waiters[0];
        waiters := waiters[1..];
        pool.FiberReady(f);
        activated := true;
        if !all {
          return;
        }
      }
    }

    /** The two loops of `set` on a manual-reset event. */
    method SetManual(pool: FiberPool)
      modifies this`waiters, this`mnWaiters, pool, Notifiers(mnWaiters)
      ensures waiters == [] && mnWaiters == []
      ensures pool.ready == old(pool.ready) + old(Unfired(mnWaiters)) + old(waiters)
      ensures forall m :: m in old(mnWaiters) ==>
                m.pmn.readyKey == if old(m.pmn.readyKey).None? then FirstKey(old(mnWaiters), m.pmn) else old(m.pmn.readyKey)
    {
      ghost var ms := mnWaiters;
      for i := 0 to |mnWaiters|
        invariant mnWaiters == ms && waiters == old(waiters)
        invariant pool.ready == old(pool.ready) + old(Unfired(ms[..i]))
        invariant forall j :: 0 <= j < |ms| ==>
                    ms[j].pmn.readyKey == if old(ms[j].pmn.readyKey).None? then FirstKey(ms[..i], ms[j].pmn) else old(ms[j].pmn.readyKey)
      {
        assert mnWaiters[i] in ms;
        assert ms[..i + 1][..i] == ms[..i];
        var fired := mnWaiters[i].pmn.NotifyReady(mnWaiters[i].key, pool);
      }
      assert ms[..|ms|] == ms;
      mnWaiters := [];
      for i := 0 to |waiters|
        invariant waiters == old(waiters) && mnWaiters == []
        invariant pool.ready == old(pool.ready) + old(Unfired(ms)) + waiters[..i]
        invariant forall m :: m in ms ==>
                    m.pmn.readyKey == if old(m.pmn.readyKey).None? then FirstKey(ms, m.pmn) else old(m.pmn.readyKey)
      {
        pool.FiberReady(waiters[i]);
      }
      waiters := [];
    }
  }

  /** Entry k has answered its notifier. */
  ghost predicate FiredAt(ms: seq<Marked>, k: nat)
    requires k < |ms|
    reads ms[k].pmn
  {
    ms[k].pmn.readyKey == Some(ms[k].key)
  }

  ghost predicate FirstLive(ms: seq<Marked>, k: nat)
    reads Notifiers(ms)
  {
    && k < |ms| && (forall j :: 0 <= j <= k ==> ms[j] in ms)
    && ms[k].pmn.readyKey.None? && forall j :: 0 <= j < k ==> ms[j].pmn.readyKey.Some?
  }

  lemma {:induction false} UnfiredHead(ms: seq<Marked>, k: nat)
    requires FirstLive(ms, k)
    ensures Unfired(ms) != [] && Unfired(ms)[0] == ms[k].pmn.initiator
  {
    if |ms| - 1 == k {
      UnfiredNone(ms[..k]);
      NoFirstKey(ms[..k], ms[k].pmn);
    } else {
      var init := ms[..|ms| - 1];
      forall j | 0 <= j <= k ensures init[j] in init { }
      UnfiredHead(init, k);
    }
  }

  lemma {:induction false} UnfiredNone(ms: seq<Marked>)
    requires forall j :: 0 <= j < |ms| ==> ms[j].pmn.readyKey.Some?
    ensures Unfired(ms) == []
  {
    if ms != [] {
      UnfiredNone(ms[..|ms| - 1]);
    }
  }

  /** The first live registration is the first unfired one; without one nobody is. */
  lemma UnfiredFirst(ms: seq<Marked>)
    ensures forall k: nat :: FirstLive(ms, k) ==> Unfired(ms) != [] && Unfired(ms)[0] == ms[k].pmn.initiator
    ensures (forall j :: 0 <= j < |ms| ==> ms[j].pmn.readyKey.Some?) ==> Unfired(ms) == []
  {
    forall k: nat | FirstLive(ms, k) ensures Unfired(ms) != [] && Unfired(ms)[0] == ms[k].pmn.initiator {
      UnfiredHead(ms, k);
    }
    if forall j :: 0 <= j < |ms| ==> ms[j].pmn.readyKey.Some? { UnfiredNone(ms); }
  }

  // ----- waitAny -----

  /** How many positions other than `skip` of es hold event e. */
  ghost function Times(es: seq<Event>, e: Event, skip: int): nat {
    if es == [] then 0
    else Times(es[..|es| - 1], e, skip) + (if es[|es| - 1] == e && |es| - 1 != skip then 1 else 0)
  }

  /** What registering with the events adds to the list of e. */
  ghost function Marks(pmn: MultiNotifier, es: seq<Event>, e: Event): seq<Marked> {
    if es == [] then []
    else Marks(pmn, es[..|es| - 1], e) + (if es[|es| - 1] == e then [Marked(pmn, |es| - 1)] else [])
  }

  /** Registering adds one entry for each place of e, with that place as its key, in their order. */
  lemma {:induction false} MarksAre(pmn: MultiNotifier, es: seq<Event>, e: Event)
    ensures |Marks(pmn, es, e)| == Times(es, e, -1)
    ensures forall i :: 0 <= i < |es| && es[i] == e ==> Marked(pmn, i) in Marks(pmn, es, e)
    ensures forall m :: m in Marks(pmn, es, e) ==> m.pmn == pmn && m.key < |es| && es[m.key] == e
    ensures forall i, j :: 0 <= i < j < |Marks(pmn, es, e)| ==> Marks(pmn, es, e)[i].key < Marks(pmn, es, e)[j].key
  {
    if es != [] {
      var init := es[..|es| - 1];
      MarksAre(pmn, init, e);
      forall i | 0 <= i < |es| && es[i] == e ensures Marked(pmn, i) in Marks(pmn, es, e) {
        if i < |init| { assert Marked(pmn, i) in Marks(pmn, init, e); }
      }
      forall i | 0 <= i < |Marks(pmn, init, e)| ensures Marks(pmn, init, e)[i].key < |init| {
        assert Marks(pmn, init, e)[i] in Marks(pmn, init, e);
      }
    }
  }

  /** Leaving out place k leaves out one place of the event there. */
  lemma {:induction false} TimesWithout(es: seq<Event>, e: Event, k: nat)
    requires k < |es|
    ensures Times(es, e, -1) == Times(es, e, k) + (if es[k] == e then 1 else 0)
  {
    var init := es[..|es| - 1];
    if k < |init| {
      TimesWithout(init, e, k);
    } else {
      SkipBehind(init, e, k);
    }
  }

  lemma {:induction false} SkipBehind(es: seq<Event>, e: Event, k: nat)
    requires k >= |es|
    ensures Times(es, e, k) == Times(es, e, -1)
  {
    if es != [] { SkipBehind(es[..|es| - 1], e, k); }
  }

  lemma {:induction false} MarksCount(ms: seq<Marked>, pmn: MultiNotifier, es: seq<Event>, e: Event)
    ensures Others(ms + Marks(pmn, es, e), pmn) == Others(ms, pmn)
    ensures Entries(ms + Marks(pmn, es, e), pmn) == Entries(ms, pmn) + Times(es, e, -1)
    decreases |es|
  {
    if es == [] {
      assert ms + [] == ms;
    } else {
      var init := es[..|es| - 1];
      MarksCount(ms, pmn, init, e);
      if es[|es| - 1] == e {
        PushedEntry(ms + Marks(pmn, init, e), pmn, |es| - 1);
        Associate(ms, Marks(pmn, init, e), [Marked(pmn, |es| - 1)]);
      } else {
        assert Marks(pmn, es, e) == Marks(pmn, init, e);
      }
    }
  }

  lemma MarksStep(ms: seq<Marked>, pmn: MultiNotifier, es: seq<Event>, i: nat, e: Event)
    requires i < |es|
    ensures ms + Marks(pmn, es[..i + 1], e) ==
              if es[i] == e then ms + Marks(pmn, es[..i], e) + [Marked(pmn, i)] else ms + Marks(pmn, es[..i], e)
  {
    assert es[..i + 1][..i] == es[..i];
    Associate(ms, Marks(pmn, es[..i], e), [Marked(pmn, i)]);
  }

  /** A list that has lost all that registering had added is the list as it was before. */
  lemma TakenBack(was: seq<Marked>, now: seq<Marked>, pmn: MultiNotifier, es: seq<Event>, e: Event)
    requires Entries(was, pmn) == 0
    requires Others(now, pmn) == Others(was + Marks(pmn, es, e), pmn)
    requires Entries(now, pmn) == Drop(Entries(was + Marks(pmn, es, e), pmn), Times(es, e, -1))
    ensures now == was
  {
    MarksCount(was, pmn, es, e);
    OnlyOthers(now, pmn);
    OnlyOthers(was, pmn);
  }

  /** Event e has lost as many of pmn's registrations as there were cancellations, and nothing else. */
  twostate predicate Cancelled(e: Event, pmn: MultiNotifier, times: nat)
    reads e
  {
    && e.Valid() && e.waiters == old(e.waiters) && e.isSet == old(e.isSet)
    && Others(e.mnWaiters, pmn) == Others(old(e.mnWaiters), pmn)
    && Entries(e.mnWaiters, pmn) == Drop(Entries(old(e.mnWaiters), pmn), times)
  }

  /** The loop that takes the first i registrations back. */
  method RollBack(pmn: MultiNotifier, events: seq<Event>, i: nat)
    requires i <= |events| && forall e :: e in events ==> e.Valid()
    modifies set e | e in events[..i]
    ensures forall e :: e in events ==> Cancelled(e, pmn, Times(events[..i], e, -1))
  {
    for b := 0 to i
      invariant forall e :: e in events ==> Cancelled(e, pmn, Times(events[..b], e, -1))
    {
      assert events[b] in events && events[..b + 1][..b] == events[..b] && events[b] == events[..i][b];
      events[b].MnCancel(pmn);
    }
  }

  /** Registration has reached position i; `was` holds the lists as they were before. */
  ghost predicate Registered(pmn: MultiNotifier, events: seq<Event>, i: nat, was: map<Event, seq<Marked>>)
    requires i <= |events|
    reads set e | e in events
  {
    forall e :: e in events ==> e.Valid() && e in was && e.mnWaiters == was[e] + Marks(pmn, events[..i], e)
  }

  /** The same loop when nothing but registrations has happened: all lists are as they were before. */
  method TakeBack(pmn: MultiNotifier, events: seq<Event>, i: nat, ghost was: map<Event, seq<Marked>>)
    requires i <= |events| && Registered(pmn, events, i, was) && forall e :: e in events ==> Entries(was[e], pmn) == 0
    modifies set e | e in events[..i]
    ensures forall e :: e in events ==> e.Valid() && e.waiters == old(e.waiters) && e.isSet == old(e.isSet) && e.mnWaiters == was[e]
  {
    RollBack(pmn, events, i);
    forall e | e in events ensures e.mnWaiters == was[e] {
      TakenBack(was[e], e.mnWaiters, pmn, events[..i], e);
    }
  }

  /** One round of the registration. */
  method RegisterNext(pmn: MultiNotifier, events: seq<Event>, i: nat, ghost was: map<Event, seq<Marked>>) returns (pending: bool)
    requires i < |events| && Registered(pmn, events, i, was)
    modifies events[i]
    ensures pending == !old(events[i].isSet) && Registered(pmn, events, if pending then i + 1 else i, was)
    ensures events[i].waiters == old(events[i].waiters) && events[i].isSet == (old(events[i].isSet) && !events[i].autoReset)
  {
    assert events[i] in events;
    pending := events[i].MnWait(Marked(pmn, i));
    forall e | pending && e in events ensures e.mnWaiters == was[e] + Marks(pmn, events[..i + 1], e) {
      MarksStep(was[e], pmn, events, i, e);
    }
  }

  /** The loop of the registration, up to the first event that is set. */
  method RegisterUntilSet(pmn: MultiNotifier, events: seq<Event>, ghost was: map<Event, seq<Marked>>) returns (i: nat)
    requires Registered(pmn, events, 0, was)
    modifies set e | e in events
    ensures i <= |events| && Registered(pmn, events, i, was)
    ensures forall j :: 0 <= j < i ==> !old(events[j].isSet)
    ensures forall e :: e in events ==> e.waiters == old(e.waiters)
    ensures forall e :: e in events && !(i < |events| && e == events[i]) ==> e.isSet == old(e.isSet)
    ensures i < |events| ==> old(events[i].isSet) && events[i].isSet == !events[i].autoReset
  {
    i := 0;
    while i < |events|
      invariant i <= |events| && Registered(pmn, events, i, was)
      invariant forall e :: e in events ==> e.waiters == old(e.waiters) && e.isSet == old(e.isSet)
      invariant forall j :: 0 <= j < i ==> !old(events[j].isSet)
    {
      assert events[i] in events;
      var pending := RegisterNext(pmn, events, i, was);
      if !pending {
        return;
      }
      assert !old(events[i].isSet);
      i := i + 1;
    }
  }

  /**
    The start of `waitAny`: register with one event after another. If one of them is set, its signal
    is taken and every earlier registration is taken back, so that no list has changed; otherwise the
    caller's notifier stands at the end of every list and the caller must park.
  */
  method Register(pmn: MultiNotifier, events: seq<Event>) returns (answer: Option<nat>)
    requires forall e :: e in events ==> e.Valid() && Entries(e.mnWaiters, pmn) == 0
    modifies pmn, set e | e in events
    ensures forall e :: e in events ==> e.Valid() && e.waiters == old(e.waiters)
    ensures answer.Some? ==>
              && answer.value < |events| && old(events[answer.value].isSet) && pmn.readyKey.Some?
              && (forall i :: 0 <= i < answer.value ==> !old(events[i].isSet))
              && (forall e :: e in events ==> e.mnWaiters == old(e.mnWaiters))
              && (forall e :: e in events && e != events[answer.value] ==> e.isSet == old(e.isSet))
              && events[answer.value].isSet == !events[answer.value].autoReset
    ensures answer.None? ==>
              && (forall e :: e in events ==> !e.isSet && !old(e.isSet)) && pmn.readyKey == old(pmn.readyKey)
              && (forall e :: e in events ==> e.mnWaiters == old(e.mnWaiters) + Marks(pmn, events, e))
  {
    ghost var was := map e | e in events :: e.mnWaiters;
    var i := RegisterUntilSet(pmn, events, was);
    if i < |events| {
      pmn.readyKey := Some(i);
      TakeBack(pmn, events, i, was);
      return Some(i);
    }
    assert events[..|events|] == events;
    return None;
  }

  /** The end of a `waitAny` that was parked: the registrations at all places but the answer's are taken back. */
  method CancelRest(pmn: MultiNotifier, events: seq<Event>)
    requires pmn.readyKey.Some? && pmn.readyKey.value < |events|
    requires forall e :: e in events ==> e.Valid()
    modifies set e | e in events
    ensures forall e :: e in events ==> Cancelled(e, pmn, Times(events, e, pmn.readyKey.value))
    ensures forall e :: e in events && old(Entries(e.mnWaiters, pmn)) <= Times(events, e, pmn.readyKey.value) ==>
              Entries(e.mnWaiters, pmn) == 0 && e.mnWaiters == Others(old(e.mnWaiters), pmn)
  {
    ghost var k := pmn.readyKey.value;
    for b := 0 to |events|
      invariant forall e :: e in events ==> Cancelled(e, pmn, Times(events[..b], e, k))
    {
      assert events[b] in events && events[..b + 1][..b] == events[..b];
      if pmn.readyKey != Some(b) {
        events[b].MnCancel(pmn);
      }
    }
    assert events[..|events|] == events;
    forall e | e in events && Entries(e.mnWaiters, pmn) == 0 ensures e.mnWaiters == Others(e.mnWaiters, pmn) {
      OnlyOthers(e.mnWaiters, pmn);
    }
  }

  // ----- mutex.cpp -----

  datatype Unlocked = Done | NotLocked

  /** A mutex, with the history of who has come and who has been let in. */
  class Mutex {
    var owners: seq<FiberId>
    ghost var arrivals: seq<FiberId>
    ghost var grants: seq<FiberId>
    ghost var released: nat

    /** Ownership is granted in the order of arrival, and to nobody before the holder has released it. */
    ghost predicate Valid()
      reads this
    {
      && released <= |arrivals| && owners == arrivals[released..]
      && grants == arrivals[..if Held() then released + 1 else released]
    }

    /** Some fiber that has come has not released the mutex. */
    ghost predicate Held()
      reads this
    {
      released < |arrivals|
    }

    constructor ()
      ensures Valid() && !Held() && arrivals == []
    {
      owners, arrivals, grants, released := [], [], [], 0;
    }

    method TryLock(f: FiberId) returns (ok: bool)
      requires Valid()
      modifies this
      ensures Valid() && released == old(released) && ok == !old(Held())
      ensures arrivals == old(arrivals) + (if ok then [f] else []) && grants == old(grants) + (if ok then [f] else [])
    {
      if owners == [] {
        owners := owners + [f];
        arrivals, grants := arrivals + [f], grants + [f];
        return true;
      }
      return false;
    }

    method Lock(f: FiberId) returns (park: bool)
      requires Valid()
      modifies this
      ensures Valid() && released == old(released) && park == old(Held())
      ensures arrivals == old(arrivals) + [f] && grants == old(grants) + (if park then [] else [f])
    {
      owners := owners + [f];
      arrivals := arrivals + [f];
      grants := arrivals[..released + 1];
      return |owners| != 1;
    }

    /** Unlocking a free mutex is an error; otherwise the mutex is granted to whoever came next, who becomes ready. */
    method Unlock(pool: FiberPool) returns (r: Unlocked)
      requires Valid()
      modifies this, pool
      ensures Valid() && arrivals == old(arrivals) && (r.Done? <==> old(Held()))
      ensures released == if r.Done? then old(released) + 1 else old(released)
      ensures old(grants) <= grants && pool.ready == old(pool.ready) + grants[|old(grants)|..]
      ensures |grants| == |old(grants)| + (if r.Done? && Held() then 1 else 0)
    {
      if owners == [] {
        return NotLocked;
      }
      owners := owners[1..];
      released := released + 1;
      grants := arrivals[..if released < |arrivals| then released + 1 else released];
      if owners != [] {
        pool.FiberReady(owners[0]);
      }
      return Done;
    }
  }
}
