/** Which tree comes out of a sequence of findings: whose child each node is in the end (ParserDom.cc). */
module DomShape {
  import opened Basics
  import opened DomTree
  import opened DomParser

  // ----- names -----

  const SMALL: string := "abcdefghijklmnopqrstuvwxyz"
  const CAPITAL: string := "ABCDEFGHIJKLMNOPQRSTUVWXYZ"

  /** One character, or the two forms of one letter. */
  predicate SameLetter(x: char, y: char) {
    x == y || exists k :: 0 <= k < 26 && {x, y} == {SMALL[k], CAPITAL[k]}
  }

  lemma LettersAt(k: nat)
    requires k < 26
    ensures SMALL[k] == 'a' + k as char && CAPITAL[k] == 'A' + k as char
  {
  }

  lemma SameLetterIs(x: char, y: char)
    ensures Lower(x) == Lower(y) <==> SameLetter(x, y)
  {
    if Lower(x) == Lower(y) && x != y {
      var k := (Lower(x) - 'a') as int;
      LettersAt(k);
      assert {x, y} == {SMALL[k], CAPITAL[k]};
    }
    if SameLetter(x, y) && x != y {
      var k :| 0 <= k < 26 && {x, y} == {SMALL[k], CAPITAL[k]};
      LettersAt(k);
      assert x in {SMALL[k], CAPITAL[k]} && y in {SMALL[k], CAPITAL[k]};
    }
  }

  /** Names are the same when they are so letter by letter, up to the form of the letters; all names are told apart otherwise. */
  lemma SameNameIs(a: string, b: string)
    ensures SameName(a, b) <==> |a| == |b| && forall i :: 0 <= i < |a| ==> SameLetter(a[i], b[i])
  {
    if |a| == |b| {
      forall i | 0 <= i < |a| ensures Lower(a[i]) == Lower(b[i]) <==> SameLetter(a[i], b[i]) {
        SameLetterIs(a[i], b[i]);
      }
    }
  }

  lemma SameNameIsEquivalence(a: string, b: string, c: string)
    ensures SameName(a, a) && (SameName(a, b) ==> SameName(b, a)) && (SameName(a, b) && SameName(b, c) ==> SameName(a, c))
  {
  }

  // ----- which tag is closed -----

  /** It is the innermost open tag of the name; without one the root is answered. */
  lemma {:induction false} MatchIsInnermost(nodes: seq<Node>, stack: seq<int>, name: string)
    requires stack != [] && forall i :: 0 <= i < |stack| ==> 0 <= stack[i] < |nodes|
    ensures var k := Match(nodes, stack, name);
            && (k > 0 ==> SameName(nodes[stack[k]].name, name))
            && forall i :: k < i < |stack| ==> !SameName(nodes[stack[i]].name, name)
    decreases |stack|
  {
    var front := stack[..|stack| - 1];
    if |stack| > 1 && !SameName(nodes[stack[|stack| - 1]].name, name) {
      MatchIsInnermost(nodes, front, name);
    }
  }

  /** What a closing tag does to the document: it closes that tag, and ends those inside it that were never closed. */
  lemma ClosingIs(d: Doc, node: Node)
    requires DocOk(d)
    ensures var k := Match(d.nodes, d.stack, node.name); var e := Step(d, Closing(node));
            if k == 0 then
              e.stack == d.stack && e.nodes == d.nodes + [node.(isTag := false, isComment := true)] && e.par == d.par + [Top(d)]
            else
              && e.stack == d.stack[..k] && |e.nodes| == |d.nodes|
              && 0 <= d.stack[k] < |d.nodes|
              && forall x :: 0 <= x < |d.nodes| ==> e.nodes[x] == if x == d.stack[k] then d.nodes[x].(closed := true) else d.nodes[x]
  {
    if Match(d.nodes, d.stack, node.name) > 0 { StackBelow(d, Match(d.nodes, d.stack, node.name)); }
  }

  /** An opening tag hangs from the innermost open tag and is the innermost one then; text and comments hang from it too. */
  lemma AddingIs(d: Doc, node: Node)
    requires DocOk(d)
    ensures Step(d, Open(node)) == Doc(d.par + [Top(d)], d.nodes + [node], d.stack + [|d.par|])
    ensures Step(d, Text(node)) == Doc(d.par + [Top(d)], d.nodes + [node], d.stack)
    ensures Step(d, Comment(node)) == Doc(d.par + [Top(d)], d.nodes + [node], d.stack)
  {
  }

  // ----- whose child a node is -----

  /** The open tags, from the root on, at the time when each node was made. */
  function Births(events: seq<Event>): (r: seq<seq<int>>)
    requires forall i :: 0 <= i < |events| ==> EventOk(events[i])
    ensures |r| == |Run(events).par|
  {
    if events == [] then [[]]
    else
      var front := events[..|events| - 1];
      var d, e := Run(front), Run(events);
      assert e == Step(d, events[|events| - 1]);
      Births(front) + (if |e.par| > |d.par| then [d.stack] else [])
  }

  /** A tag that has not been ended by the closing tag of another: the root, an open one, or one that was closed. */
  predicate Kept(d: Doc, q: int) {
    q == 0 || q in d.stack || (0 <= q < |d.nodes| && d.nodes[q].closed)
  }

  /** p is the last one on the way that is kept. */
  predicate IsInnermostKept(way: seq<int>, d: Doc, p: int) {
    exists a :: 0 <= a < |way| && KeptAt(way, d, p, a)
  }

  predicate KeptAt(way: seq<int>, d: Doc, p: int, a: int)
    requires 0 <= a < |way|
  {
    way[a] == p && Kept(d, p) && forall b :: a < b < |way| ==> !Kept(d, way[b])
  }

  /** A tag that is still open has the same tags around it as when it was opened. */
  predicate SameAround(way: seq<int>, stack: seq<int>, a: nat)
    requires a < |way|
  {
    way[a] in stack ==> a < |stack| && way[..a + 1] == stack[..a + 1]
  }

  predicate WayOk(way: seq<int>, d: Doc, x: int) {
    && way != [] && way[0] == 0
    && (forall a :: 0 <= a < |way| ==> 0 <= way[a] < x)
    && (forall a: nat :: a < |way| ==> SameAround(way, d.stack, a))
  }

  /** The open tags are not closed, but for the root. */
  predicate OpenOnes(d: Doc) {
    forall i :: 0 < i < |d.stack| ==> 0 <= d.stack[i] < |d.nodes| && !d.nodes[d.stack[i]].closed
  }

  ghost predicate ShapeOk(d: Doc, ways: seq<seq<int>>) {
    && DocOk(d) && OpenOnes(d) && |ways| == |d.par|
    && forall x :: 0 < x < |ways| ==> HangsWell(ways[x], d, x)
  }

  ghost predicate HangsWell(way: seq<int>, d: Doc, x: int) {
    WayOk(way, d, x) && 0 < x < |d.par| && IsInnermostKept(way, d, d.par[x])
  }

  lemma KeptGrows(way: seq<int>, d: Doc, e: Doc, p: int)
    requires IsInnermostKept(way, d, p)
    requires forall b :: 0 <= b < |way| ==> Kept(e, way[b]) == Kept(d, way[b])
    ensures IsInnermostKept(way, e, p)
  {
    var a :| 0 <= a < |way| && KeptAt(way, d, p, a);
    assert KeptAt(way, e, p, a);
  }

  /** A node that is added does not disturb the others. */
  lemma AddedWell(way: seq<int>, d: Doc, node: Node, stack: seq<int>, x: int)
    requires HangsWell(way, d, x) && |d.nodes| == |d.par| && d.stack != []
    requires stack == d.stack || stack == d.stack + [|d.par|]
    ensures HangsWell(way, Doc(d.par + [Top(d)], d.nodes + [node], stack), x)
  {
    var e := Doc(d.par + [Top(d)], d.nodes + [node], stack);
    forall a: nat | a < |way| ensures SameAround(way, stack, a) && Kept(e, way[a]) == Kept(d, way[a]) {
      assert SameAround(way, d.stack, a);
      assert way[a] < |d.par|;
      if way[a] in stack { assert way[a] in d.stack && stack[..a + 1] == d.stack[..a + 1]; }
    }
    KeptGrows(way, d, e, d.par[x]);
  }

  /** The node itself hangs from the innermost open tag. */
  lemma NewHangsWell(d: Doc, node: Node, stack: seq<int>)
    requires DocOk(d) && (stack == d.stack || stack == d.stack + [|d.par|])
    ensures HangsWell(d.stack, Doc(d.par + [Top(d)], d.nodes + [node], stack), |d.par|)
  {
    var e := Doc(d.par + [Top(d)], d.nodes + [node], stack);
    PathAbove(d.par, Top(d));
    forall a: nat | a < |d.stack| ensures 0 <= d.stack[a] < |d.par| && SameAround(d.stack, stack, a) {
      assert d.stack[a] in d.stack;
      assert stack[..a + 1] == d.stack[..a + 1];
    }
    var last := |d.stack| - 1;
    assert d.stack[last] in stack by { assert stack[last] == d.stack[last]; }
    assert KeptAt(d.stack, e, Top(d), last);
  }

  lemma AddedShape(d: Doc, ways: seq<seq<int>>, node: Node, stack: seq<int>)
    requires ShapeOk(d, ways) && !node.closed && DocOk(Doc(d.par + [Top(d)], d.nodes + [node], stack))
    requires stack == d.stack || stack == d.stack + [|d.par|]
    ensures ShapeOk(Doc(d.par + [Top(d)], d.nodes + [node], stack), ways + [d.stack])
  {
    var e, all := Doc(d.par + [Top(d)], d.nodes + [node], stack), ways + [d.stack];
    NewHangsWell(d, node, stack);
    forall x | 0 < x < |all| ensures HangsWell(all[x], e, x) {
      if x < |ways| { AddedWell(ways[x], d, node, stack, x); }
    }
  }

  // ----- closing -----

  lemma StackDistinct(d: Doc, i: nat, j: nat)
    requires DocOk(d) && i < |d.stack| && j < |d.stack| && d.stack[i] == d.stack[j]
    ensures i == j
  {
    if i < j {
      StackIncreases(d, i, j);
    } else if j < i {
      StackIncreases(d, j, i);
    }
  }

  /** Who is kept after the closing of tag number k: all as before but for the tags inside it. */
  lemma KeptAfter(d: Doc, k: nat, q: int)
    requires DocOk(d) && OpenOnes(d) && 0 < k < |d.stack| && 0 <= d.stack[k] < |d.nodes|
    ensures Kept(Closed(d, k), q) <==> Kept(d, q) && q !in d.stack[k + 1..]
  {
    var e, i := Closed(d, k), d.stack[k];
    assert d.stack == d.stack[..k] + [i] + d.stack[k + 1..];
    PathAbove(d.par, Top(d));
    if q in d.stack[k + 1..] {
      var j :| 0 <= j < |d.stack[k + 1..]| && d.stack[k + 1..][j] == q;
      var at := k + 1 + j;
      assert d.stack[at] == q;
      StackIncreases(d, k, at);
      if q in e.stack {
        var b :| 0 <= b < k && d.stack[b] == q;
        StackDistinct(d, b, at);
      }
      StackIncreases(d, 0, at);
    }
  }

  /** The tags around an open one, on a way that leads through it. */
  lemma WayThrough(way: seq<int>, d: Doc, x: int, k: nat, a: nat)
    requires DocOk(d) && OpenOnes(d) && WayOk(way, d, x) && 0 < k < |d.stack| && 0 <= d.stack[k] < |d.nodes|
    requires a < |way| && way[a] in d.stack[k + 1..] && forall b :: a < b < |way| ==> !Kept(d, way[b])
    ensures k < a && IsInnermostKept(way, Closed(d, k), d.stack[k])
  {
    var e := Closed(d, k);
    var j :| 0 <= j < |d.stack[k + 1..]| && d.stack[k + 1..][j] == way[a];
    assert d.stack[k + 1 + j] == way[a];
    assert SameAround(way, d.stack, a) && way[a] in d.stack;
    assert way[..a + 1][a] == d.stack[..a + 1][a];
    StackDistinct(d, a, k + 1 + j);
    assert way[k] == way[..a + 1][k] == d.stack[k];
    forall b | k < b < |way| ensures !Kept(e, way[b]) {
      KeptAfter(d, k, way[b]);
      if b <= a {
        assert way[b] == way[..a + 1][b] == d.stack[b] == d.stack[k + 1..][b - (k + 1)];
      }
    }
    KeptAfter(d, k, d.stack[k]);
    assert d.stack[k] !in d.stack[k + 1..] by { StackBelow(d, k); }
    assert KeptAt(way, e, d.stack[k], k);
  }

  lemma ClosedWay(way: seq<int>, d: Doc, x: int, k: nat)
    requires DocOk(d) && WayOk(way, d, x) && 0 < k < |d.stack| && 0 <= d.stack[k] < |d.nodes|
    ensures WayOk(way, Closed(d, k), x)
  {
    forall a: nat | a < |way| ensures SameAround(way, d.stack[..k], a) {
      assert SameAround(way, d.stack, a);
      if way[a] in d.stack[..k] {
        var b :| 0 <= b < k && d.stack[b] == way[a];
        assert way[a] in d.stack && way[..a + 1][a] == d.stack[..a + 1][a];
        StackDistinct(d, a, b);
        assert d.stack[..k][..a + 1] == d.stack[..a + 1];
      }
    }
  }

  lemma ClosedWell(way: seq<int>, d: Doc, x: int, k: nat)
    requires DocOk(d) && OpenOnes(d) && HangsWell(way, d, x) && 0 < k < |d.stack| && 0 <= d.stack[k] < |d.nodes|
    ensures HangsWell(way, Closed(d, k), x)
  {
    var e, p := Closed(d, k), d.par[x];
    ClosedWay(way, d, x, k);
    var a :| 0 <= a < |way| && KeptAt(way, d, p, a);
    if p in d.stack[k + 1..] {
      WayThrough(way, d, x, k, a);
    } else {
      forall b | a <= b < |way| ensures Kept(e, way[b]) == (b == a) {
        KeptAfter(d, k, way[b]);
      }
      assert KeptAt(way, e, p, a);
    }
  }

  lemma ClosedShape(d: Doc, ways: seq<seq<int>>, k: nat)
    requires ShapeOk(d, ways) && 0 < k < |d.stack| && 0 <= d.stack[k] < |d.nodes| && DocOk(Closed(d, k))
    ensures ShapeOk(Closed(d, k), ways)
  {
    var e := Closed(d, k);
    forall i | 0 < i < |e.stack| ensures 0 <= e.stack[i] < |e.nodes| && !e.nodes[e.stack[i]].closed {
      if d.stack[i] == d.stack[k] { StackDistinct(d, i, k); }
    }
    forall x | 0 < x < |ways| ensures HangsWell(ways[x], e, x) {
      ClosedWell(ways[x], d, x, k);
    }
  }

  // ----- whole documents -----

  lemma StepShape(d: Doc, ways: seq<seq<int>>, ev: Event)
    requires ShapeOk(d, ways) && EventOk(ev)
    ensures var e := Step(d, ev);
            ShapeOk(e, ways + (if |e.par| > |d.par| then [d.stack] else []))
  {
    StepKeeps(d, ev);
    match ev
    case Open(node) => AddedShape(d, ways, node, d.stack + [|d.par|]);
    case Text(node) => AddedShape(d, ways, node, d.stack);
    case Comment(node) => AddedShape(d, ways, node, d.stack);
    case Closing(node) =>
      var k := Match(d.nodes, d.stack, node.name);
      if k == 0 {
        AddedShape(d, ways, AsComment(node), d.stack);
      } else {
        StackBelow(d, k);
        ClosedShape(d, ways, k);
        assert ways + [] == ways;
      }
  }

  lemma {:induction false} RunShape(events: seq<Event>)
    requires forall i :: 0 <= i < |events| ==> EventOk(events[i])
    ensures ShapeOk(Run(events), Births(events))
  {
    if events == [] {
      StartOk();
    } else {
      var front := events[..|events| - 1];
      RunShape(front);
      StepShape(Run(front), Births(front), events[|events| - 1]);
    }
  }

  /**
    In the document made of any findings every node but the root hangs from the innermost tag that was open when the node was
    found and has not been ended, in the end, by the closing tag of another one.
  */
  lemma ParentIsInnermostKept(events: seq<Event>, x: int)
    requires (forall i :: 0 <= i < |events| ==> EventOk(events[i])) && 0 < x < |Run(events).par|
    ensures IsInnermostKept(Births(events)[x], Run(events), Run(events).par[x])
  {
    RunShape(events);
    assert HangsWell(Births(events)[x], Run(events), x);
  }
}
