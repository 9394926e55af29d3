/** Small vocabulary shared by the models: optional values and sequences without repetition. */
module Basics {

  datatype Option<+T> = None | Some(value: T)

  type byte = b: int | 0 <= b < 256

  predicate NoDup<T(==)>(s: seq<T>) {
    forall i, j :: 0 <= i < j < |s| ==> s[i] != s[j]
  }

  /** Concatenation of a sequence of pieces. */
  function Flatten<T>(ss: seq<seq<T>>): (r: seq<T>) {
    if ss == [] then [] else ss[0] + Flatten(ss[1..])
  }

  lemma {:induction false} FlattenAppend<T>(a: seq<seq<T>>, b: seq<seq<T>>)
    ensures Flatten(a + b) == Flatten(a) + Flatten(b)
  {
    if a == [] {
      assert a + b == b;
    } else {
      assert (a + b)[1..] == a[1..] + b;
      FlattenAppend(a[1..], b);
    }
  }

  lemma FlattenOne<T>(p: seq<T>)
    ensures Flatten([p]) == p
  {
    assert Flatten([p]) == p + Flatten<T>([]);
  }

  /** The sequence without the first occurrence of x. */
  function RemoveFirst<T(==)>(s: seq<T>, x: T): seq<T> {
    if s == [] then [] else if s[0] == x then s[1..] else [s[0]] + RemoveFirst(s[1..], x)
  }

  /** Only that occurrence is gone, and the others stay in their order. */
  lemma {:induction false} RemoveFirstAt<T>(s: seq<T>, x: T) returns (i: nat)
    requires x in s
    ensures i < |s| && s[i] == x && x !in s[..i] && RemoveFirst(s, x) == s[..i] + s[i + 1..]
  {
    if s[0] == x {
      return 0;
    }
    assert s == [s[0]] + s[1..];
    var j := RemoveFirstAt(s[1..], x);
    i := j + 1;
    assert s[..i] == [s[0]] + s[1..][..j] && s[i + 1..] == s[1..][j + 1..];
  }

  lemma {:induction false} RemoveFirstAbsent<T>(s: seq<T>, x: T)
    requires x !in s
    ensures RemoveFirst(s, x) == s
  {
    if s != [] { RemoveFirstAbsent(s[1..], x); }
  }

  lemma {:induction false} RemoveFirstMembers<T>(s: seq<T>, x: T)
    requires NoDup(s)
    ensures NoDup(RemoveFirst(s, x))
    ensures forall y :: y in RemoveFirst(s, x) <==> y in s && y != x
  {
    if s == [] {
    } else if s[0] == x {
    } else {
      RemoveFirstMembers(s[1..], x);
      assert NoDup(s[1..]) by { assert forall i :: 0 <= i < |s| - 1 ==> s[1..][i] == s[i + 1]; }
      assert s == [s[0]] + s[1..];
      assert s[0] !in s[1..];
    }
  }

  lemma TailMembers<T>(s: seq<T>)
    requires NoDup(s) && s != []
    ensures NoDup(s[1..])
    ensures forall y :: y in s[1..] <==> y in s && y != s[0]
  {
    assert s == [s[0]] + s[1..];
    forall i, j | 0 <= i < j < |s[1..]| ensures s[1..][i] != s[1..][j] {
      assert s[i + 1] != s[j + 1];
    }
  }

  lemma SnocMembers<T>(s: seq<T>, x: T)
    ensures NoDup(s) && x !in s ==> NoDup(s + [x])
    ensures forall y :: y in s + [x] <==> y in s || y == x
  {
  }

  lemma Associate<T>(a: seq<T>, b: seq<T>, c: seq<T>)
    ensures (a + b) + c == a + (b + c)
  {
  }

  lemma SizeOfSubset<T>(a: set<T>, b: set<T>)
    requires a <= b
    ensures |a| <= |b|
  {
    assert b == a + (b - a);
  }

  /** The numbers below n. */
  function NumbersBelow(n: nat): (r: set<nat>)
    ensures |r| == n && forall x: nat :: x in r <==> x < n
  {
    if n == 0 then {} else NumbersBelow(n - 1) + {n - 1}
  }

  function Members(s: seq<nat>): (r: set<nat>)
    ensures forall x :: x in r <==> x in s
    ensures NoDup(s) ==> |r| == |s|
  {
    if s == [] then {}
    else
      assert NoDup(s) ==> NoDup(s[1..]) && s[0] !in s[1..] by { if NoDup(s) { TailMembers(s); } }
      Members(s[1..]) + {s[0]}
  }

  lemma DistinctBelow(s: seq<nat>, n: nat)
    requires NoDup(s) && forall x :: x in s ==> x < n
    ensures |s| <= n
  {
    SizeOfSubset(Members(s), NumbersBelow(n));
  }

  /** n different numbers below n are all of them. */
  lemma AllBelow(s: seq<nat>, n: nat)
    requires NoDup(s) && |s| == n && forall x :: x in s ==> x < n
    ensures forall k: nat {:trigger k in s} :: k < n <==> k in s
  {
    forall k: nat | k < n ensures k in s {
      if k !in Members(s) { SizeOfSubset(Members(s), NumbersBelow(n) - {k}); }
    }
  }

  // ----- products and quotients -----

  lemma MulMonotone(n: nat, a: nat, b: nat)
    ensures a <= b ==> n * a <= n * b
    ensures n * (a + 1) == n * a + n
  {
  }

  /** A number has one quotient and one remainder. */
  lemma Quotient(m: nat, n: nat, q: nat, r: nat)
    requires r < n && m == n * q + r
    ensures m / n == q && m % n == r
  {
    var q', r' := m / n, m % n;
    assert m == n * q' + r';
    if q < q' {
      MulMonotone(n, q + 1, q');
      MulMonotone(n, q, q');
    } else if q' < q {
      MulMonotone(n, q' + 1, q);
      MulMonotone(n, q', q);
    }
  }

  lemma MulAssociate(a: nat, b: nat, c: nat)
    ensures (a * b) * c == a * (b * c)
  {
  }

  lemma PlaceFits(a: nat, b: nat, u: nat, r: nat)
    requires r < a && u < b
    ensures a * u + r < a * b
  {
    MulMonotone(a, u + 1, b);
    MulMonotone(a, u, b);
  }

  lemma PlaceValue(a: nat, b: nat, t: nat, u: nat, r: nat)
    ensures a * (b * t + u) + r == (a * b) * t + (a * u + r)
  {
    MulAssociate(a, b, t);
  }

  /** Dividing by a product is dividing twice. */
  lemma DivideTwice(n: nat, a: nat, b: nat)
    requires a > 0 && b > 0
    ensures a * b > 0 && n / (a * b) == n / a / b
  {
    var q, r := n / a, n % a;
    var t, u := q / b, q % b;
    PlaceFits(a, b, u, r);
    PlaceValue(a, b, t, u, r);
    Parts(n, a);
    Parts(q, b);
    Quotient(n, a * b, t, a * u + r);
  }

  lemma Parts(n: nat, a: nat)
    requires a > 0
    ensures n == a * (n / a) + n % a
  {
  }
}
