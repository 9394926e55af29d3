/** The tree of a document (tree.h): sibling links, appending, flattening and the way through in pre-order. */
module DomTree {
  import opened Basics

  /** The parent of every node; nodes are numbered as they are made, and node 0 is the root. */
  type Parents = seq<int>

  predicate ParentsOk(par: Parents) {
    |par| > 0 && par[0] == -1 && forall i {:trigger par[i]} :: 0 < i < |par| ==> 0 <= par[i] < i
  }

  /** x is k or above it. */
  predicate Above(par: Parents, x: int, k: int)
    requires ParentsOk(par) && k < |par|
    decreases k
  {
    k >= 0 && (x == k || Above(par, x, par[k]))
  }

  /** Every node hangs from the one made before it or from a node above that: the numbers run in pre-order. */
  predicate PreOrder(par: Parents) {
    ParentsOk(par) && forall i: nat :: 0 < i < |par| ==> HangsRight(par, i)
  }

  predicate HangsRight(par: Parents, i: nat)
    requires ParentsOk(par) && 0 < i < |par|
  {
    Above(par, par[i], i - 1)
  }

  lemma {:induction false} AboveIsBelow(par: Parents, x: int, k: int)
    requires ParentsOk(par) && k < |par| && Above(par, x, k)
    ensures 0 <= x <= k
    decreases k
  {
    if x != k { AboveIsBelow(par, x, par[k]); }
  }

  lemma {:induction false} AboveTransitive(par: Parents, x: int, y: int, z: int)
    requires ParentsOk(par) && y < |par| && z < |par| && Above(par, x, y) && Above(par, y, z)
    ensures Above(par, x, z)
    decreases z
  {
    if y != z { AboveTransitive(par, x, y, par[z]); }
  }

  lemma {:induction false} RootAbove(par: Parents, k: int)
    requires ParentsOk(par) && 0 <= k < |par|
    ensures Above(par, 0, k)
    decreases k
  {
    if k > 0 { RootAbove(par, par[k]); }
  }

  /** Behind the next sibling of p nothing is below p any more. */
  lemma {:induction false} NothingBelowLater(par: Parents, p: int, s: int, j: int)
    requires PreOrder(par) && 0 <= p < s <= j < |par| && par[s] < p
    ensures !Above(par, p, j)
    decreases j
  {
    if j == s {
      if Above(par, p, par[s]) { AboveIsBelow(par, p, par[s]); }
    } else {
      NothingBelowLater(par, p, s, j - 1);
      assert HangsRight(par, j);
      if Above(par, p, par[j]) { AboveTransitive(par, p, par[j], j - 1); }
    }
  }

  // ----- links -----

  predicate IsNext(par: Parents, i: int, v: int)
    requires 0 <= i < |par|
  {
    if v == -1 then forall j {:trigger par[j]} :: i < j < |par| ==> par[j] != par[i]
    else i < v < |par| && par[v] == par[i] && forall j {:trigger par[j]} :: i < j < v ==> par[j] != par[i]
  }

  predicate IsPrev(par: Parents, i: int, v: int)
    requires 0 <= i < |par|
  {
    if v == -1 then forall j {:trigger par[j]} :: 0 <= j < i ==> par[j] != par[i]
    else 0 <= v < i && par[v] == par[i] && forall j {:trigger par[j]} :: v < j < i ==> par[j] != par[i]
  }

  predicate IsFirst(par: Parents, i: int, v: int) {
    if v == -1 then forall j {:trigger par[j]} :: 0 <= j < |par| ==> par[j] != i
    else 0 <= v < |par| && par[v] == i && forall j {:trigger par[j]} :: 0 <= j < v ==> par[j] != i
  }

  predicate IsLast(par: Parents, i: int, v: int) {
    if v == -1 then forall j {:trigger par[j]} :: 0 <= j < |par| ==> par[j] != i
    else 0 <= v < |par| && par[v] == i && forall j {:trigger par[j]} :: v < j < |par| ==> par[j] != i
  }

  /** The children of node p are given to its parent, right behind p. */
  function Flattened(par: Parents, p: int): (r: Parents)
    requires 0 <= p < |par|
    ensures |r| == |par|
  {
    seq(|par|, j requires 0 <= j < |par| => if par[j] == p then par[p] else par[j])
  }

  lemma {:induction false} FlattenedAbove(par: Parents, p: int, x: int, k: int)
    requires ParentsOk(par) && 0 < p < |par| && k < |par|
    ensures ParentsOk(Flattened(par, p))
    ensures x != p ==> (Above(Flattened(par, p), x, k) <==> Above(par, x, k))
    ensures Above(Flattened(par, p), p, k) <==> k == p
    decreases k
  {
    var par1 := Flattened(par, p);
    if k >= 0 {
      FlattenedAbove(par, p, x, par[k]);
      if par[k] == p { FlattenedAbove(par, p, x, par[p]); }
    }
  }

  /** `flatten` preserves pre-order. */
  lemma FlattenedPreOrder(par: Parents, p: int)
    requires PreOrder(par) && 0 < p < |par|
    ensures PreOrder(Flattened(par, p))
  {
    var par1 := Flattened(par, p);
    FlattenedAbove(par, p, 0, 0);
    forall i: nat | 0 < i < |par1| ensures HangsRight(par1, i) {
      assert HangsRight(par, i);
      if par[i] == p {
        assert Above(par, par[p], p);
        AboveTransitive(par, par[p], p, i - 1);
        FlattenedAbove(par, p, par[p], i - 1);
      } else {
        FlattenedAbove(par, p, par[i], i - 1);
      }
    }
  }

  /** One node more: the numbers still run in pre-order if and only if it hangs below the last one or below a node above that. */
  lemma AppendedPreOrder(par: Parents, c: int)
    requires ParentsOk(par) && 0 <= c < |par|
    ensures PreOrder(par + [c]) <==> PreOrder(par) && Above(par, c, |par| - 1)
    ensures forall x, k {:trigger Above(par + [c], x, k)} {:trigger Above(par, x, k)} :: k < |par| ==>
              Above(par + [c], x, k) == Above(par, x, k)
  {
    var par1 := par + [c];
    assert ParentsOk(par1);
    forall x, k {:trigger Above(par1, x, k)} {:trigger Above(par, x, k)} | k < |par| ensures Above(par1, x, k) == Above(par, x, k) {
      AppendedAbove(par, c, x, k);
    }
    forall i: nat | 0 < i < |par| ensures HangsRight(par1, i) == HangsRight(par, i) {
      assert par1[i] == par[i];
    }
    assert HangsRight(par1, |par|) == Above(par, c, |par| - 1);
  }

  lemma {:induction false} AppendedAbove(par: Parents, c: int, x: int, k: int)
    requires ParentsOk(par) && 0 <= c < |par| && k < |par| && ParentsOk(par + [c])
    ensures Above(par + [c], x, k) == Above(par, x, k)
    decreases k
  {
    if k >= 0 { AppendedAbove(par, c, x, par[k]); }
  }

  // ----- the links after appending and flattening -----

  lemma AppendedNext(par: Parents, c: int, i: int, v: int, last: int)
    requires ParentsOk(par) && 0 <= c < |par| && 0 <= i < |par| && IsNext(par, i, v) && IsLast(par, c, last)
    ensures IsNext(par + [c], i, if i == last then |par| else v)
    ensures IsNext(par + [c], |par|, -1)
  {
    var par1 := par + [c];
    assert forall j {:trigger par1[j]} :: 0 <= j < |par| ==> par1[j] == par[j];
    assert par1[|par|] == c;
    if par[i] == c { assert i <= last; }
  }

  lemma AppendedPrev(par: Parents, c: int, i: int, v: int, last: int)
    requires ParentsOk(par) && 0 <= c < |par| && 0 <= i < |par| && IsPrev(par, i, v) && IsLast(par, c, last)
    ensures IsPrev(par + [c], i, v)
    ensures IsPrev(par + [c], |par|, last)
  {
    var par1 := par + [c];
    assert forall j {:trigger par1[j]} :: 0 <= j < |par| ==> par1[j] == par[j];
    assert par1[|par|] == c;
  }

  lemma AppendedEnds(par: Parents, c: int, i: int, first: int, last: int)
    requires ParentsOk(par) && 0 <= c < |par| && 0 <= i < |par| && IsFirst(par, i, first) && IsLast(par, i, last)
    ensures IsFirst(par + [c], i, if i == c && first == -1 then |par| else first)
    ensures IsLast(par + [c], i, if i == c then |par| else last)
    ensures IsFirst(par + [c], |par|, -1) && IsLast(par + [c], |par|, -1)
    ensures first == -1 <==> last == -1
  {
    var par1 := par + [c];
    assert forall j {:trigger par1[j]} :: 0 <= j < |par| ==> par1[j] == par[j];
    assert par1[|par|] == c;
    assert forall j {:trigger par[j]} :: 0 <= j < |par| ==> par[j] != |par|;
    if first != -1 { assert par[first] == i; }
    if last != -1 { assert par[last] == i; }
  }

  /** The children of p stand between p and its next sibling. */
  lemma ChildrenBetween(par: Parents, p: int, s: int, j: int)
    requires PreOrder(par) && 0 < p < |par| && IsNext(par, p, s) && 0 <= j < |par| && par[j] == p
    ensures p < j && (s != -1 ==> j < s)
  {
    if s != -1 && s <= j {
      NothingBelowLater(par, p, s, j);
    }
  }

  /** A node that takes part in the flattening of p: its first and last child, its parent and its next sibling. */
  ghost predicate Around(par: Parents, p: int, a: int, b: int, s: int) {
    && PreOrder(par) && 0 < p < |par| && IsFirst(par, p, a) && IsLast(par, p, b) && IsNext(par, p, s) && a != -1 && b != -1
    && (forall j {:trigger par[j]} :: 0 <= j < |par| && par[j] == p ==> p < j && (s != -1 ==> j < s))
  }

  lemma FlattenedNext(par: Parents, p: int, a: int, b: int, s: int, i: int, v: int)
    requires Around(par, p, a, b, s) && 0 <= i < |par| && IsNext(par, i, v)
    ensures IsNext(Flattened(par, p), i, if i == p then a else if i == b then s else v)
  {
    var par1 := Flattened(par, p);
    assert par[a] == p && par[b] == p;
    assert forall j {:trigger par1[j]} :: 0 <= j < |par| ==> par1[j] == if par[j] == p then par[p] else par[j];
    if s != -1 { assert par[s] == par[p]; }
    if v != -1 { assert par[v] == par[i]; }
  }

  lemma FlattenedPrev(par: Parents, p: int, a: int, b: int, s: int, i: int, v: int)
    requires Around(par, p, a, b, s) && 0 <= i < |par| && IsPrev(par, i, v)
    ensures IsPrev(Flattened(par, p), i, if i == a then p else if i == s then b else v)
  {
    var par1 := Flattened(par, p);
    assert par[a] == p && par[b] == p;
    assert forall j {:trigger par1[j]} :: 0 <= j < |par| ==> par1[j] == if par[j] == p then par[p] else par[j];
    if s != -1 { assert par[s] == par[p]; }
    if v != -1 { assert par[v] == par[i]; }
  }

  lemma FlattenedEnds(par: Parents, p: int, a: int, b: int, s: int, i: int, first: int, last: int)
    requires Around(par, p, a, b, s) && 0 <= i < |par| && IsFirst(par, i, first) && IsLast(par, i, last)
    ensures IsFirst(Flattened(par, p), i, if i == p then -1 else first)
    ensures IsLast(Flattened(par, p), i, if i == p then -1 else if i == par[p] && s == -1 then b else last)
  {
    var par1 := Flattened(par, p);
    assert par[a] == p && par[b] == p;
    assert forall j {:trigger par1[j]} :: 0 <= j < |par| ==> par1[j] == if par[j] == p then par[p] else par[j];
    if s != -1 { assert par[s] == par[p]; }
    if first != -1 { assert par[first] == i; }
    if last != -1 { assert par[last] == i; }
  }

  datatype Links = Links(first: seq<int>, last: seq<int>, prev: seq<int>, next: seq<int>) {
    predicate Sized(n: nat) {
      |first| == |last| == |prev| == |next| == n
    }
  }

  /** All links of node i agree with the parents. */
  predicate LinkedAt(par: Parents, l: Links, i: int)
    requires l.Sized(|par|) && 0 <= i < |par|
  {
    IsNext(par, i, l.next[i]) && IsPrev(par, i, l.prev[i]) && IsFirst(par, i, l.first[i]) && IsLast(par, i, l.last[i])
  }

  predicate Linked(par: Parents, l: Links) {
    l.Sized(|par|) && forall i {:trigger LinkedAt(par, l, i)} :: 0 <= i < |par| ==> LinkedAt(par, l, i)
  }

  lemma AppendedLinked(par: Parents, l: Links, c: int, l1: Links)
    requires ParentsOk(par) && Linked(par, l) && 0 <= c < |par|
    requires var n, last := |par|, l.last[c];
             && l1.Sized(n + 1)
             && l1.next[n] == -1 && l1.prev[n] == last && l1.first[n] == -1 && l1.last[n] == -1
             && forall i :: 0 <= i < n ==>
                  && l1.next[i] == (if i == last then n else l.next[i])
                  && l1.prev[i] == l.prev[i]
                  && l1.first[i] == (if i == c && last == -1 then n else l.first[i])
                  && l1.last[i] == (if i == c then n else l.last[i])
    ensures Linked(par + [c], l1)
  {
    var last := l.last[c];
    forall i | 0 <= i < |par| + 1 ensures LinkedAt(par + [c], l1, i) {
      var k := if i < |par| then i else c;
      assert LinkedAt(par, l, k) && LinkedAt(par, l, c);
      AppendedNext(par, c, k, l.next[k], last);
      AppendedPrev(par, c, k, l.prev[k], last);
      AppendedEnds(par, c, k, l.first[k], l.last[k]);
    }
  }

  lemma FlattenedLinked(par: Parents, l: Links, p: int, l1: Links)
    requires PreOrder(par) && Linked(par, l) && 0 < p < |par| && l.first[p] != -1
    requires var a, b, s, g := l.first[p], l.last[p], l.next[p], par[p];
             && b != -1 && l1.Sized(|par|)
             && (forall i :: 0 <= i < |par| ==>
                   && l1.next[i] == (if i == p then a else if i == b then s else l.next[i])
                   && l1.prev[i] == (if i == a then p else if i == s then b else l.prev[i])
                   && l1.first[i] == (if i == p then -1 else l.first[i])
                   && l1.last[i] == (if i == p then -1 else if i == g && s == -1 then b else l.last[i]))
    ensures Linked(Flattened(par, p), l1)
  {
    var a, b, s, g := l.first[p], l.last[p], l.next[p], par[p];
    assert LinkedAt(par, l, p);
    assert Around(par, p, a, b, s) by {
      forall j {:trigger par[j]} | 0 <= j < |par| && par[j] == p ensures p < j && (s != -1 ==> j < s) {
        ChildrenBetween(par, p, s, j);
      }
    }
    forall i | 0 <= i < |par| ensures LinkedAt(Flattened(par, p), l1, i) {
      assert LinkedAt(par, l, i);
      FlattenedNext(par, p, a, b, s, i, l.next[i]);
      FlattenedPrev(par, p, a, b, s, i, l.prev[i]);
      FlattenedEnds(par, p, a, b, s, i, l.first[i], l.last[i]);
    }
  }

  /** What a node that has children knows of them and of its own place. */
  lemma LinkRanges(par: Parents, l: Links, p: int)
    requires ParentsOk(par) && Linked(par, l) && 0 <= p < |par|
    ensures l.first[p] == -1 <==> l.last[p] == -1
    ensures -1 <= l.first[p] < |par| && -1 <= l.last[p] < |par| && -1 <= l.next[p] < |par| && -1 <= l.prev[p] < |par|
    ensures l.first[p] != -1 ==> l.first[p] != p && l.last[p] != p && l.next[p] != p && l.next[l.last[p]] == -1
  {
    assert LinkedAt(par, l, p);
    if l.first[p] != -1 { assert par[l.first[p]] == p; }
    if l.last[p] != -1 {
      assert par[l.last[p]] == p && LinkedAt(par, l, l.last[p]);
    }
  }

  class Tree {
    var parent: Parents
    var firstChild: seq<int>
    var lastChild: seq<int>
    var prevSibling: seq<int>
    var nextSibling: seq<int>

    function View(): Links
      reads this
    {
      Links(firstChild, lastChild, prevSibling, nextSibling)
    }

    predicate Consistent()
      reads this
    {
      ParentsOk(parent) && Linked(parent, View())
    }

    predicate Valid()
      reads this
    {
      Consistent() && PreOrder(parent)
    }

    /** A tree with nothing but its root. */
    constructor ()
      ensures Valid() && parent == [-1]
    {
      parent, firstChild, lastChild, prevSibling, nextSibling := [-1], [-1], [-1], [-1], [-1];
    }

    /** `append_child` below any node; the numbers stay in pre-order exactly on the right edge of the tree. */
    method AppendChild(position: int) returns (tmp: int)
      requires Consistent() && 0 <= position < |parent|
      modifies this
      ensures Consistent() && tmp == |old(parent)| && parent == old(parent) + [position]
      ensures Valid() <==> old(Valid()) && Above(old(parent), position, |old(parent)| - 1)
    {
      tmp := |parent|;
      AppendedPreOrder(parent, position);
      LinkRanges(parent, View(), position);
      var last := lastChild[position];
      parent := parent + [position];
      firstChild := firstChild + [-1];
      lastChild := lastChild + [-1];
      prevSibling := prevSibling + [last];
      nextSibling := nextSibling + [-1];
      if last != -1 {
        nextSibling := nextSibling[last := tmp];
      } else {
        firstChild := firstChild[position := tmp];
      }
      lastChild := lastChild[position := tmp];
      AppendedLinked(old(parent), old(View()), position, View());
    }

    /** `flatten` */
    method Flatten(position: int)
      requires Valid() && 0 < position < |parent|
      modifies this
      ensures Valid() && parent == Flattened(old(parent), position)
    {
      LinkRanges(parent, View(), position);
      FlattenedPreOrder(parent, position);
      if firstChild[position] == -1 {
        assert LinkedAt(parent, View(), position);
        assert parent == Flattened(parent, position);
        return;
      }
      MoveChildren(position);
      if nextSibling[position] != -1 {
        nextSibling := nextSibling[lastChild[position] := nextSibling[position]];
        prevSibling := prevSibling[nextSibling[position] := lastChild[position]];
      } else {
        lastChild := lastChild[parent[position] := lastChild[position]];
      }
      nextSibling := nextSibling[position := firstChild[position]];
      prevSibling := prevSibling[nextSibling[position] := position];
      firstChild := firstChild[position := -1];
      lastChild := lastChild[position := -1];
      FlattenedLinked(old(parent), old(View()), position, View());
    }

    /** The loop of `flatten` over the siblings of the first child. */
    method MoveChildren(position: int)
      requires Valid() && 0 < position < |parent|
      modifies `parent
      ensures parent == Flattened(old(parent), position)
    {
      ghost var par := parent;
      var g := parent[position];
      var tmp := firstChild[position];
      assert LinkedAt(parent, View(), position);
      while tmp != -1
        invariant -1 <= tmp < |par| && |parent| == |par|
        invariant tmp != -1 ==> par[tmp] == position
        invariant forall j {:trigger parent[j]} {:trigger par[j]} :: 0 <= j < |par| ==>
                    parent[j] == if par[j] == position && (tmp == -1 || j < tmp) then g else par[j]
        decreases if tmp == -1 then 0 else |par| - tmp
      {
        assert LinkedAt(par, View(), tmp);
        var next := nextSibling[tmp];
        parent := parent[tmp := g];
        tmp := next;
      }
    }

    /** `operator++`; the root's next sibling is the end mark, written |parent|. */
    method Increment(start: int) returns (node: int)
      requires Valid() && 0 <= start < |parent|
      ensures node == start + 1
    {
      node := start;
      if firstChild[node] != -1 {
        FirstChildIsNext(parent, View(), node);
        return firstChild[node];
      }
      assert LinkedAt(parent, View(), start);
      assert start + 1 < |parent| ==> HangsRight(parent, start + 1);
      while nextSibling[node] == -1
        invariant 0 <= node <= start && Above(parent, node, start)
        invariant start + 1 < |parent| ==> StrictlyAbove(parent, parent[start + 1], node)
        decreases node
      {
        assert LinkedAt(parent, View(), node);
        if node == 0 {
          return |parent|;
        }
        ClimbGoesOn(parent, start, node);
        node := parent[node];
      }
      SiblingIsNext(parent, View(), start, node);
      node := nextSibling[node];
    }

    /** Going through the tree from its root meets the nodes in the order in which they were made. */
    method Walk() returns (nodes: seq<int>)
      requires Valid()
      ensures |nodes| == |parent| && forall i :: 0 <= i < |nodes| ==> nodes[i] == i
    {
      nodes := [];
      var it := 0;
      while it != |parent|
        invariant 0 <= it <= |parent| && |nodes| == it && forall i :: 0 <= i < it ==> nodes[i] == i
      {
        nodes := nodes + [it];
        it := Increment(it);
      }
    }
  }

  predicate StrictlyAbove(par: Parents, x: int, k: int)
    requires ParentsOk(par) && k < |par|
  {
    x != k && Above(par, x, k)
  }

  /** The first child was made right after its parent. */
  lemma FirstChildIsNext(par: Parents, l: Links, k: int)
    requires PreOrder(par) && Linked(par, l) && 0 <= k < |par| && l.first[k] != -1
    ensures l.first[k] == k + 1
  {
    assert LinkedAt(par, l, k);
    var f := l.first[k];
    assert par[f] == k;
    if par[k + 1] != k {
      assert HangsRight(par, k + 1);
      AboveIsBelow(par, par[k + 1], k);
      NothingBelowLater(par, k, k + 1, f);
    }
  }

  /** A node below which the next one made does not hang, and which has no next sibling, hangs below something that it does. */
  lemma ClimbGoesOn(par: Parents, start: int, k: int)
    requires PreOrder(par) && 0 < k <= start < |par| && Above(par, k, start) && IsNext(par, k, -1)
    requires start + 1 < |par| ==> StrictlyAbove(par, par[start + 1], k)
    ensures Above(par, par[k], start)
    ensures start + 1 < |par| ==> StrictlyAbove(par, par[start + 1], par[k])
  {
    AboveTransitive(par, par[k], k, start);
  }

  /** The first next sibling on the way up was made right after the node where the way began. */
  lemma SiblingIsNext(par: Parents, l: Links, start: int, k: int)
    requires PreOrder(par) && Linked(par, l) && 0 <= k <= start < |par| && Above(par, k, start) && l.next[k] != -1
    requires start + 1 < |par| ==> StrictlyAbove(par, par[start + 1], k)
    ensures l.next[k] == start + 1
  {
    assert LinkedAt(par, l, k);
    var v, m := l.next[k], par[k];
    assert par[v] == m;
    if v <= start {
      NothingBelowLater(par, k, v, start);
    } else if v > start + 1 {
      AboveIsBelow(par, par[start + 1], m);
      if par[start + 1] != m {
        NothingBelowLater(par, m, start + 1, v);
      }
    }
  }
}
