/** The canonical ordering loop of utf8proc_decompose (utf8proc.cpp): section 3.11 of the Unicode Standard. */
module CanonicalOrdering {
  import opened Basics

  /** The combining class of a code point, from the property tables. */
  type Classes = int -> nat

  /** Neighbours whose order is wrong. */
  predicate Wrong(x: int, y: int, cc: Classes) {
    cc(x) > cc(y) > 0
  }

  predicate OrderedAt(s: seq<int>, i: nat, cc: Classes)
    requires i + 1 < |s|
  {
    !Wrong(s[i], s[i + 1], cc)
  }

  predicate Ordered(s: seq<int>, cc: Classes) {
    forall i: nat :: i + 1 < |s| ==> OrderedAt(s, i, cc)
  }

  lemma OrderedTail(s: seq<int>, cc: Classes)
    requires Ordered(s, cc) && s != []
    ensures Ordered(s[1..], cc)
  {
    forall i: nat | i + 1 < |s[1..]| ensures OrderedAt(s[1..], i, cc) {
      assert OrderedAt(s, i + 1, cc);
    }
  }

  lemma OrderedSnoc(s: seq<int>, x: int, cc: Classes)
    requires Ordered(s, cc) && (s == [] || !Wrong(s[|s| - 1], x, cc))
    ensures Ordered(s + [x], cc)
  {
    forall i: nat | i + 1 < |s| + 1 ensures OrderedAt(s + [x], i, cc) {
      if i + 1 < |s| { assert OrderedAt(s, i, cc); }
    }
  }

  /**
    The characters of class 0 and of class c, in their order. When a rearrangement keeps this for every c, no mark has crossed a
    character of class 0, and marks of one class have kept their order.
  */
  function Projection(s: seq<int>, cc: Classes, c: nat): seq<int> {
    if s == [] then [] else Kept(s[0], cc, c) + Projection(s[1..], cc, c)
  }

  function Kept(x: int, cc: Classes, c: nat): seq<int> {
    if cc(x) == 0 || cc(x) == c then [x] else []
  }

  ghost predicate SameProjections(s: seq<int>, t: seq<int>, cc: Classes) {
    forall c: nat :: Projection(s, cc, c) == Projection(t, cc, c)
  }

  lemma {:induction false} ProjectionAppend(a: seq<int>, b: seq<int>, cc: Classes, c: nat)
    ensures Projection(a + b, cc, c) == Projection(a, cc, c) + Projection(b, cc, c)
  {
    if a == [] {
      assert a + b == b;
    } else {
      assert (a + b)[1..] == a[1..] + b && (a + b)[0] == a[0];
      ProjectionAppend(a[1..], b, cc, c);
      Associate(Kept(a[0], cc, c), Projection(a[1..], cc, c), Projection(b, cc, c));
    }
  }

  lemma SwapProjection(a: seq<int>, x: int, y: int, b: seq<int>, cc: Classes, c: nat)
    requires Wrong(x, y, cc)
    ensures Projection(a + ([x, y] + b), cc, c) == Projection(a + ([y, x] + b), cc, c)
  {
    ProjectionAppend(a, [x, y] + b, cc, c);
    ProjectionAppend(a, [y, x] + b, cc, c);
    assert ([x, y] + b)[1..] == [y] + b && ([y] + b)[1..] == b;
    assert ([y, x] + b)[1..] == [x] + b && ([x] + b)[1..] == b;
    assert Kept(x, cc, c) == [] || Kept(y, cc, c) == [];
  }

  /** Two marks of different classes may change places. */
  lemma SwapKeepsProjections(s: seq<int>, i: nat, cc: Classes)
    requires i + 1 < |s| && Wrong(s[i], s[i + 1], cc)
    ensures SameProjections(s, s[i := s[i + 1]][i + 1 := s[i]], cc)
  {
    var t := s[i := s[i + 1]][i + 1 := s[i]];
    var x, y, b := s[i], s[i + 1], s[i + 2..];
    assert s == s[..i] + ([x, y] + b) && t == s[..i] + ([y, x] + b);
    forall c: nat ensures Projection(s, cc, c) == Projection(t, cc, c) {
      SwapProjection(s[..i], x, y, b, cc, c);
    }
  }

  // ----- there is only one ordered rearrangement -----

  /** In an ordered sequence that begins with a mark, no smaller mark comes before the next character of class 0. */
  lemma {:induction false} NoSmallerMarkFirst(s: seq<int>, cc: Classes, c: nat)
    requires Ordered(s, cc) && s != [] && cc(s[0]) > c > 0
    ensures Projection(s, cc, c) == [] || cc(Projection(s, cc, c)[0]) == 0
  {
    if |s| > 1 {
      assert OrderedAt(s, 0, cc);
      OrderedTail(s, cc);
      if cc(s[1]) > 0 {
        NoSmallerMarkFirst(s[1..], cc, c);
      }
    }
  }

  lemma ProjectionHead(s: seq<int>, cc: Classes, c: nat)
    requires s != [] && (cc(s[0]) == 0 || cc(s[0]) == c)
    ensures Projection(s, cc, c) != [] && Projection(s, cc, c)[0] == s[0]
  {
  }

  lemma ProjectionTail(s: seq<int>, cc: Classes, c: nat)
    requires s != []
    ensures Projection(s[1..], cc, c) == Projection(s, cc, c)[if cc(s[0]) == 0 || cc(s[0]) == c then 1 else 0..]
  {
  }

  lemma SameHead(s: seq<int>, t: seq<int>, cc: Classes)
    requires Ordered(s, cc) && Ordered(t, cc) && SameProjections(s, t, cc) && s != [] && t != []
    ensures s[0] == t[0]
  {
    var c, d := cc(s[0]), cc(t[0]);
    assert Projection(s, cc, c) == Projection(t, cc, c) && Projection(s, cc, d) == Projection(t, cc, d);
    ProjectionHead(s, cc, c);
    ProjectionHead(t, cc, d);
    if c < d && c > 0 {
      NoSmallerMarkFirst(t, cc, c);
    } else if d < c && d > 0 {
      NoSmallerMarkFirst(s, cc, d);
    } else if c == 0 {
      ProjectionHead(s, cc, d);
    } else if d == 0 {
      ProjectionHead(t, cc, c);
    }
  }

  lemma {:induction false} OrderedIsUnique(s: seq<int>, t: seq<int>, cc: Classes)
    requires Ordered(s, cc) && Ordered(t, cc) && SameProjections(s, t, cc)
    ensures s == t
  {
    if t != [] {
      ProjectionHead(t, cc, cc(t[0]));
      assert Projection(s, cc, cc(t[0])) == Projection(t, cc, cc(t[0]));
    }
    if s != [] {
      ProjectionHead(s, cc, cc(s[0]));
      assert Projection(s, cc, cc(s[0])) == Projection(t, cc, cc(s[0]));
      SameHead(s, t, cc);
      forall c: nat ensures Projection(s[1..], cc, c) == Projection(t[1..], cc, c) {
        assert Projection(s, cc, c) == Projection(t, cc, c);
        ProjectionTail(s, cc, c);
        ProjectionTail(t, cc, c);
      }
      OrderedTail(s, cc);
      OrderedTail(t, cc);
      OrderedIsUnique(s[1..], t[1..], cc);
      assert s == [s[0]] + s[1..] && t == [t[0]] + t[1..];
    }
  }

  // ----- the ordering as a function -----

  /** A new last character, brought to its place among the marks at the end of an ordered sequence. */
  function Place(s: seq<int>, x: int, cc: Classes): seq<int> {
    if s == [] || !Wrong(s[|s| - 1], x, cc) then s + [x] else Place(s[..|s| - 1], x, cc) + [s[|s| - 1]]
  }

  function Canonical(s: seq<int>, cc: Classes): seq<int> {
    if s == [] then [] else Place(Canonical(s[..|s| - 1], cc), s[|s| - 1], cc)
  }

  lemma {:induction false} PlaceOrders(s: seq<int>, x: int, cc: Classes)
    requires Ordered(s, cc)
    ensures var r := Place(s, x, cc);
            && Ordered(r, cc) && SameProjections(r, s + [x], cc) && multiset(r) == multiset(s) + multiset{x}
            && r != [] && (r[|r| - 1] == x || (s != [] && r[|r| - 1] == s[|s| - 1]))
  {
    if s == [] || !Wrong(s[|s| - 1], x, cc) {
      OrderedSnoc(s, x, cc);
    } else {
      var front, y := s[..|s| - 1], s[|s| - 1];
      assert s == front + [y];
      assert Ordered(front, cc) by {
        forall i: nat | i + 1 < |front| ensures OrderedAt(front, i, cc) { assert OrderedAt(s, i, cc); }
      }
      PlaceOrders(front, x, cc);
      var r := Place(front, x, cc);
      PlaceBeforeLast(front, r, x, y, cc);
      if front != [] { assert OrderedAt(s, |s| - 2, cc); }
      OrderedSnoc(r, y, cc);
    }
  }

  lemma PlaceBeforeLast(front: seq<int>, r: seq<int>, x: int, y: int, cc: Classes)
    requires SameProjections(r, front + [x], cc) && Wrong(y, x, cc)
    ensures SameProjections(r + [y], front + [y] + [x], cc)
  {
    var t := front + [y] + [x];
    assert t[|front| := x][|front| + 1 := y] == front + [x] + [y];
    SwapKeepsProjections(t, |front|, cc);
    forall c: nat ensures Projection(r + [y], cc, c) == Projection(t, cc, c) {
      ProjectionAppend(r, [y], cc, c);
      ProjectionAppend(front + [x], [y], cc, c);
      assert Projection(r, cc, c) == Projection(front + [x], cc, c);
    }
  }

  /** The canonical order is an ordered permutation that keeps all projections, and by the lemma above the only one. */
  lemma {:induction false} CanonicalOrders(s: seq<int>, cc: Classes)
    ensures Ordered(Canonical(s, cc), cc) && SameProjections(Canonical(s, cc), s, cc)
    ensures multiset(Canonical(s, cc)) == multiset(s)
    ensures forall i :: 0 < i < |Canonical(s, cc)| ==> cc(Canonical(s, cc)[i]) == 0 || cc(Canonical(s, cc)[i - 1]) <= cc(Canonical(s, cc)[i])
  {
    if s != [] {
      var front, x := s[..|s| - 1], s[|s| - 1];
      CanonicalOrders(front, cc);
      var r := Canonical(front, cc);
      PlaceOrders(r, x, cc);
      assert s == front + [x];
      forall c: nat ensures Projection(Place(r, x, cc), cc, c) == Projection(s, cc, c) {
        assert Projection(Place(r, x, cc), cc, c) == Projection(r + [x], cc, c);
        assert Projection(r, cc, c) == Projection(front, cc, c);
        ProjectionAppend(r, [x], cc, c);
        ProjectionAppend(front, [x], cc, c);
      }
      OrderedNeighbours(Place(r, x, cc), cc);
    }
  }

  lemma OrderedNeighbours(s: seq<int>, cc: Classes)
    requires Ordered(s, cc)
    ensures forall i :: 0 < i < |s| ==> cc(s[i]) == 0 || cc(s[i - 1]) <= cc(s[i])
  {
    forall i | 0 < i < |s| ensures cc(s[i]) == 0 || cc(s[i - 1]) <= cc(s[i]) {
      assert OrderedAt(s, i - 1, cc);
    }
  }

  /** What is in order stays as it is; so ordering twice is ordering once. */
  lemma CanonicalIdempotent(s: seq<int>, cc: Classes)
    ensures Ordered(s, cc) ==> Canonical(s, cc) == s
    ensures Canonical(Canonical(s, cc), cc) == Canonical(s, cc)
  {
    CanonicalOrders(s, cc);
    CanonicalOrders(Canonical(s, cc), cc);
    if Ordered(s, cc) { OrderedIsUnique(Canonical(s, cc), s, cc); }
    OrderedIsUnique(Canonical(Canonical(s, cc), cc), Canonical(s, cc), cc);
  }

  // ----- the loop -----

  /** Classes weighted by their distance to the end: what every exchange makes smaller. */
  function Weight(s: seq<int>, cc: Classes): nat {
    if s == [] then 0 else |s| * cc(s[0]) + Weight(s[1..], cc)
  }

  lemma {:induction false} SwapLowersWeight(s: seq<int>, i: nat, cc: Classes)
    requires i + 1 < |s| && cc(s[i]) > cc(s[i + 1])
    ensures Weight(s[i := s[i + 1]][i + 1 := s[i]], cc) < Weight(s, cc)
  {
    var t := s[i := s[i + 1]][i + 1 := s[i]];
    if i == 0 {
      var x, y, n := cc(s[0]), cc(s[1]), |s|;
      assert s[1..][1..] == s[2..] == t[1..][1..];
      assert Weight(s, cc) == n * x + ((n - 1) * y + Weight(s[2..], cc));
      assert Weight(t, cc) == n * y + ((n - 1) * x + Weight(s[2..], cc));
      assert n * x + (n - 1) * y - (n * y + (n - 1) * x) == x - y;
    } else {
      assert t[1..] == s[1..][i - 1 := s[1..][i]][i := s[1..][i - 1]];
      SwapLowersWeight(s[1..], i - 1, cc);
    }
  }

  /** The loop steps back after an exchange, so what is before it is always in order. */
  method Order(buffer: array<int>, cc: Classes)
    modifies buffer
    ensures buffer[..] == Canonical(old(buffer[..]), cc)
  {
    ghost var was := buffer[..];
    var pos := 0;
    while pos < buffer.Length - 1
      invariant 0 <= pos <= buffer.Length - 1 || pos == 0
      invariant SameProjections(buffer[..], was, cc)
      invariant forall i: nat :: i < pos ==> OrderedAt(buffer[..], i, cc)
      decreases Weight(buffer[..], cc), buffer.Length - pos
    {
      ghost var before := buffer[..];
      var uc1, uc2 := buffer[pos], buffer[pos + 1];
      if cc(uc1) > cc(uc2) > 0 {
        SwapKeepsProjections(before, pos, cc);
        SwapLowersWeight(before, pos, cc);
        buffer[pos] := uc2;
        buffer[pos + 1] := uc1;
        assert buffer[..] == before[pos := uc2][pos + 1 := uc1];
        forall i: nat | i + 1 < pos ensures OrderedAt(buffer[..], i, cc) {
          assert OrderedAt(before, i, cc);
        }
        if pos > 0 {
          pos := pos - 1;
        } else {
          pos := pos + 1;
        }
      } else {
        assert OrderedAt(before, pos, cc);
        pos := pos + 1;
      }
    }
    CanonicalOrders(was, cc);
    OrderedIsUnique(buffer[..], Canonical(was, cc), cc);
  }
}
