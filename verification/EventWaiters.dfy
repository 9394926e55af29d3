/** Waiting for several events one after the other (eventWaiter.hpp). */
module EventWaiters {
  import opened Basics

  /** An added event and the number under which it was added. */
  datatype Holder<T> = Holder(event: T, originalIndex: nat)

  /** What `current` and `currentIndex` do. */
  datatype Access<T> = Value(holder: Holder<T>) | Throws | OutOfRange

  function Originals<T>(hs: seq<Holder<T>>): (r: seq<nat>)
    ensures |r| == |hs|
  {
    seq(|hs|, i requires 0 <= i < |hs| => hs[i].originalIndex)
  }

  function Events<T>(hs: seq<Holder<T>>): (r: seq<T>)
    ensures |r| == |hs|
  {
    seq(|hs|, i requires 0 <= i < |hs| => hs[i].event)
  }

  function Swapped<T>(s: seq<T>, i: nat, j: nat): seq<T>
    requires i < |s| && j < |s|
  {
    s[i := s[j]][j := s[i]]
  }

  class EventWaiter<T(==)> {
    var customs: seq<Holder<T>>
    var events: seq<T>
    var current: int                  // -1 before the first wait
    ghost var added: seq<T>           // the events in the order they were added
    ghost var returned: seq<nat>      // the original indices that successful waits have made current

    /** How many holders have been current. */
    function Past(): nat
      reads this
    {
      if current < 0 then 0 else if current < |customs| then current + 1 else |customs|
    }

    /** The two containers are the same permutation of what was added. */
    ghost predicate Valid()
      reads this
    {
      && current >= -1 && |customs| == |added| && events == Events(customs)
      && NoDup(Originals(customs))
      && forall i :: 0 <= i < |customs| ==> customs[i].originalIndex < |added| && customs[i].event == added[customs[i].originalIndex]
    }

    /** Every holder that has been passed was returned when it was current. */
    ghost predicate Complete()
      reads this
    {
      returned == Originals(customs[..Past()])
    }

    constructor ()
      ensures Valid() && Complete() && added == [] && returned == [] && current == -1
    {
      customs, events, current, added, returned := [], [], -1, [], [];
    }

    /** `operator<<`; an event that is added after a wait has returned false is never returned. */
    method Add(event: T)
      requires Valid()
      modifies this
      ensures Valid() && added == old(added) + [event] && returned == old(returned) && current == old(current)
      ensures old(Complete()) ==> (Complete() <==> old(current) < |old(events)|)
    {
      customs := customs + [Holder(event, |customs|)];
      events := events + [event];
      added := added + [event];
      assert Originals(customs) == Originals(old(customs)) + [|old(customs)|];
      assert customs[..old(Past())] == old(customs)[..old(Past())];
    }

    /** The ready event changes places with the first one that was offered. */
    method BringForward(ready: nat)
      requires Valid() && current >= 0 && current + ready < |events|
      modifies `customs, `events
      ensures Valid() && customs == Swapped(old(customs), current, current + ready) && multiset(customs) == multiset(old(customs))
    {
      SwappedFacts(customs, current, current + ready);
      if ready != 0 {
        events := Swapped(events, current, current + ready);
        customs := Swapped(customs, current, current + ready);
      }
    }

    /** `wait`; `ready` is what `waitAny` answers when there are events to wait for. */
    method Wait(ready: nat) returns (r: bool)
      requires Valid() && (current + 1 < |events| ==> ready < |events| - (current + 1))
      modifies this
      ensures Valid() && added == old(added) && current == old(current) + 1
      ensures r == (current < |events|) && multiset(customs) == multiset(old(customs))
      ensures r ==> customs[current] == old(customs)[current + ready] && returned == old(returned) + [customs[current].originalIndex]
      ensures !r ==> returned == old(returned) && customs == old(customs)
      ensures old(Complete()) ==> Complete()
    {
      current := current + 1;
      if current >= |events| {
        assert customs[..Past()] == old(customs)[..old(Past())];
        return false;
      }
      BringForward(ready);
      assert customs[..current + 1] == old(customs)[..current] + [customs[current]];
      returned := returned + [customs[current].originalIndex];
      r := true;
    }

    /** `current` and `currentIndex`: right after the first false answer they go beyond the end. */
    method Current() returns (r: Access<T>)
      requires Valid()
      ensures r == if current == -1 || current > |events| then Throws else if current == |events| then OutOfRange else Value(customs[current])
    {
      if current == -1 {
        return Throws;
      }
      if current > |events| {
        return Throws;
      }
      r := if current < |customs| then Value(customs[current]) else OutOfRange;
    }
  }

  lemma SwappedFacts<T>(hs: seq<Holder<T>>, i: nat, j: nat)
    requires i < |hs| && j < |hs| && NoDup(Originals(hs))
    ensures NoDup(Originals(Swapped(hs, i, j))) && Events(Swapped(hs, i, j)) == Swapped(Events(hs), i, j)
    ensures multiset(Swapped(hs, i, j)) == multiset(hs)
    ensures i == j ==> Swapped(hs, i, j) == hs
  {
    var s := Originals(hs);
    assert Originals(Swapped(hs, i, j)) == Swapped(s, i, j);
    forall a, b | 0 <= a < b < |s| ensures Swapped(s, i, j)[a] != Swapped(s, i, j)[b] {
      var a1 := if a == i then j else if a == j then i else a;
      var b1 := if b == i then j else if b == j then i else b;
      assert Swapped(s, i, j)[a] == s[a1] && Swapped(s, i, j)[b] == s[b1] && a1 != b1;
    }
  }

  /** When a wait has returned false, every index has been returned, each one once. */
  lemma EachReturnedOnce<T>(w: EventWaiter<T>)
    requires w.Valid() && w.Complete() && w.current >= |w.events|
    ensures |w.returned| == |w.added| && NoDup(w.returned)
    ensures forall k: nat {:trigger k in w.returned} :: k < |w.added| <==> k in w.returned
  {
    assert w.customs[..w.Past()] == w.customs;
    forall x | x in w.returned ensures x < |w.added| {
      var i :| 0 <= i < |w.returned| && w.returned[i] == x;
      assert w.customs[i].originalIndex == x;
    }
    AllBelow(w.returned, |w.added|);
  }

  /** Waiting until the answer is false, whatever `waitAny` answers: every event is returned once, under its number. */
  method WaitForAll<T(==)>(events: seq<T>, answer: nat -> nat) returns (indices: seq<nat>, got: seq<T>)
    requires forall k :: 0 <= k < |events| ==> answer(k) < |events| - k
    ensures |indices| == |got| == |events| && NoDup(indices)
    ensures forall k: nat {:trigger k in indices} :: k < |events| <==> k in indices
    ensures forall k :: 0 <= k < |got| ==> indices[k] < |events| && got[k] == events[indices[k]]
  {
    var w := new EventWaiter<T>();
    for i := 0 to |events|
      invariant fresh(w) && w.Valid() && w.Complete() && w.current == -1 && w.added == events[..i] && w.returned == []
    {
      w.Add(events[i]);
    }
    assert events[..|events|] == events;
    indices, got := [], [];
    var ok := true;
    while ok
      invariant fresh(w) && w.Valid() && w.Complete() && w.added == events && w.returned == indices
      invariant |got| == |indices| <= |events| && (if ok then w.current == |indices| - 1 else w.current == |indices| == |events|)
      invariant forall k :: 0 <= k < |got| ==> indices[k] < |events| && got[k] == events[indices[k]]
      decreases ok, |events| - |indices|
    {
      ok := w.Wait(answer(|indices|));
      if ok {
        var holder := w.customs[w.current];
        indices, got := indices + [holder.originalIndex], got + [holder.event];
      }
    }
    EachReturnedOnce(w);
  }
}
