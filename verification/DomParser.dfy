/** Building a document tree from what a parser finds (ParserDom.cc), against a machine with a stack of open tags. */
module DomParser {
  import opened Basics
  import opened DomTree

  /** `closed` is set when the closing tag of a tag is met. */
  datatype Node = Node(isTag: bool, isComment: bool, name: string, closed: bool)

  function Lower(c: char): char {
    if 'A' <= c <= 'Z' then c - 'A' + 'a' else c
  }

  /** strcasecmp(...) == 0 */
  predicate SameName(a: string, b: string) {
    |a| == |b| && forall i :: 0 <= i < |a| ==> Lower(a[i]) == Lower(b[i])
  }

  // ----- the machine -----

  /** The parents, the nodes, and the open tags from the root on. */
  datatype Doc = Doc(par: Parents, nodes: seq<Node>, stack: seq<int>)

  const ROOT: Node := Node(true, false, "", false)

  function Start(): Doc {
    Doc([-1], [ROOT], [0])
  }

  function Top(d: Doc): int
    requires d.stack != []
  {
    d.stack[|d.stack| - 1]
  }

  /** The place of the innermost open tag with a name; 0 when there is none. */
  function Match(nodes: seq<Node>, stack: seq<int>, name: string): (k: nat)
    requires stack != [] && forall i :: 0 <= i < |stack| ==> 0 <= stack[i] < |nodes|
    ensures k < |stack|
    decreases |stack|
  {
    if |stack| == 1 then 0
    else if SameName(nodes[stack[|stack| - 1]].name, name) then |stack| - 1
    else Match(nodes, stack[..|stack| - 1], name)
  }

  /** The nodes below the given ones hang from `target` now. */
  function Rehung(par: Parents, from: seq<int>, target: int): (r: Parents)
    ensures |r| == |par|
  {
    seq(|par|, x requires 0 <= x < |par| => if par[x] in from then target else par[x])
  }

  function AddLeaf(d: Doc, node: Node): Doc
    requires d.stack != []
  {
    Doc(d.par + [Top(d)], d.nodes + [node], d.stack)
  }

  function AddOpen(d: Doc, node: Node): Doc
    requires d.stack != []
  {
    Doc(d.par + [Top(d)], d.nodes + [node], d.stack + [|d.par|])
  }

  function AsComment(node: Node): Node {
    node.(isTag := false, isComment := true)
  }

  function Closed(d: Doc, k: nat): Doc
    requires k < |d.stack| && 0 <= d.stack[k] < |d.nodes|
  {
    var i := d.stack[k];
    Doc(Rehung(d.par, d.stack[k + 1..], i), d.nodes[i := d.nodes[i].(closed := true)], d.stack[..k])
  }

  /**
    A closing tag closes the innermost open tag of its name; what hung from the tags in between, which are never closed, hangs
    from it then. Without such a tag it becomes a comment.
  */
  function Close(d: Doc, node: Node): Doc
    requires DocOk(d)
  {
    var k := Match(d.nodes, d.stack, node.name);
    if k == 0 then AddLeaf(d, AsComment(node)) else Closed(d, k)
  }

  /** The nodes from the root down to k. */
  function PathTo(par: Parents, k: int): (r: seq<int>)
    requires ParentsOk(par) && 0 <= k < |par|
    ensures r != [] && r[|r| - 1] == k && r[0] == 0
    ensures forall i :: 0 <= i < |r| ==> 0 <= r[i] <= k
    decreases k
  {
    if k == 0 then [0] else PathTo(par, par[k]) + [k]
  }

  /** On the right edge: the last node made, or above it. */
  predicate OnEdge(par: Parents, x: int) {
    ParentsOk(par) && Above(par, x, |par| - 1)
  }

  /** Only tags have children, and every tag with children is the root, open, or closed by its own closing tag. */
  predicate Accounted(par: Parents, nodes: seq<Node>, stack: seq<int>) {
    && |nodes| == |par|
    && forall j {:trigger par[j]} :: 0 < j < |par| ==>
         0 <= par[j] < |nodes| && nodes[par[j]].isTag && (par[j] == 0 || par[j] in stack || nodes[par[j]].closed)
  }

  /** The numbers run in pre-order, and the open tags are the way from the root to a node on the right edge. */
  ghost predicate DocOk(d: Doc) {
    && PreOrder(d.par) && Accounted(d.par, d.nodes, d.stack) && d.stack != []
    && 0 <= Top(d) < |d.par| && OnEdge(d.par, Top(d)) && d.stack == PathTo(d.par, Top(d))
    && (forall i :: 0 <= i < |d.stack| ==> d.nodes[d.stack[i]].isTag)
  }

  predicate PathStep(par: Parents, r: seq<int>, i: nat)
    requires 0 < i < |r|
  {
    0 <= r[i - 1] < r[i] < |par| && par[r[i]] == r[i - 1]
  }

  /** The way from the root to k holds what is above k, each hanging from the one before it. */
  lemma {:induction false} PathAbove(par: Parents, k: int)
    requires ParentsOk(par) && 0 <= k < |par|
    ensures forall x :: x in PathTo(par, k) <==> Above(par, x, k)
    ensures forall i: nat :: 0 < i < |PathTo(par, k)| ==> PathStep(par, PathTo(par, k), i)
    decreases k
  {
    if k > 0 {
      PathAbove(par, par[k]);
      var r, s := PathTo(par, k), PathTo(par, par[k]);
      assert r == s + [k];
      forall i: nat | 0 < i < |r| ensures PathStep(par, r, i) {
        if i < |s| { assert PathStep(par, s, i); }
      }
    }
  }

  lemma {:induction false} PathPrefix(par: Parents, k: int, i: nat)
    requires ParentsOk(par) && 0 <= k < |par| && i < |PathTo(par, k)|
    ensures PathTo(par, PathTo(par, k)[i]) == PathTo(par, k)[..i + 1]
    decreases k
  {
    var r := PathTo(par, k);
    if i < |r| - 1 {
      var s := PathTo(par, par[k]);
      assert r == s + [k];
      PathPrefix(par, par[k], i);
      assert r[..i + 1] == s[..i + 1];
    } else {
      assert r[..i + 1] == r;
    }
  }

  lemma {:induction false} PathAppended(par: Parents, c: int, k: int)
    requires ParentsOk(par) && 0 <= c < |par| && 0 <= k < |par| && ParentsOk(par + [c])
    ensures PathTo(par + [c], k) == PathTo(par, k)
    decreases k
  {
    if k > 0 { PathAppended(par, c, par[k]); }
  }

  lemma AppendedAccounted(par: Parents, nodes: seq<Node>, stack: seq<int>, c: int, node: Node, stack2: seq<int>)
    requires Accounted(par, nodes, stack) && 0 <= c < |par| && nodes[c].isTag && c in stack && stack <= stack2
    ensures Accounted(par + [c], nodes + [node], stack2)
  {
    forall j {:trigger (par + [c])[j]} | 0 < j < |par| + 1
      ensures var i := (par + [c])[j];
              0 <= i < |nodes| && (nodes + [node])[i].isTag && (i == 0 || i in stack2 || (nodes + [node])[i].closed)
    {
      assert j < |par| ==> (par + [c])[j] == par[j];
      InPrefix(stack, stack2, (par + [c])[j]);
    }
  }

  lemma InPrefix<T>(a: seq<T>, b: seq<T>, x: T)
    requires a <= b
    ensures x in a ==> x in b
  {
    if x in a {
      var i :| 0 <= i < |a| && a[i] == x;
      assert b[i] == x;
    }
  }

  /** The right edge after a node has been appended to the top. */
  lemma AppendedEdge(d: Doc)
    requires DocOk(d)
    ensures var par1, n := d.par + [Top(d)], |d.par|;
            && PreOrder(par1) && PathTo(par1, Top(d)) == d.stack && PathTo(par1, n) == d.stack + [n]
            && Above(par1, Top(d), n) && Above(par1, n, n)
  {
    var par1, n := d.par + [Top(d)], |d.par|;
    AppendedPreOrder(d.par, Top(d));
    PathAppended(d.par, Top(d), Top(d));
    assert par1[n] == Top(d);
    assert Above(par1, Top(d), Top(d));
  }

  lemma AddLeafKeeps(d: Doc, node: Node)
    requires DocOk(d)
    ensures DocOk(AddLeaf(d, node))
  {
    AppendedEdge(d);
    AppendedAccounted(d.par, d.nodes, d.stack, Top(d), node, d.stack);
  }

  lemma AddOpenKeeps(d: Doc, node: Node)
    requires DocOk(d) && node.isTag
    ensures DocOk(AddOpen(d, node))
  {
    AppendedEdge(d);
    AppendedAccounted(d.par, d.nodes, d.stack, Top(d), node, d.stack + [|d.par|]);
  }

  // ----- closing -----

  predicate HangsAt(par: Parents, target: int, from: seq<int>, j: nat)
    requires j < |from|
  {
    0 <= target < from[j] < |par| && par[from[j]] == (if j == 0 then target else from[j - 1]) < from[j]
  }

  /** Tags below `target`, each hanging from the one before it. */
  predicate Below(par: Parents, target: int, from: seq<int>) {
    forall j: nat :: j < |from| ==> HangsAt(par, target, from, j)
  }

  /** The loop over the path: the lowest tag is flattened first. */
  function FlattenAll(par: Parents, from: seq<int>): (r: Parents)
    ensures |r| == |par|
    decreases |from|
  {
    if from == [] || !(0 <= from[|from| - 1] < |par|) then par else FlattenAll(Flattened(par, from[|from| - 1]), from[..|from| - 1])
  }

  lemma FlattenNext(par: Parents, from: seq<int>, n: nat)
    requires 0 < n <= |from| && 0 <= from[n - 1] < |par|
    ensures FlattenAll(par, from[..n]) == FlattenAll(Flattened(par, from[n - 1]), from[..n - 1])
  {
    assert from[..n][..n - 1] == from[..n - 1];
  }

  lemma {:induction false} Increasing(par: Parents, target: int, from: seq<int>, i: nat, j: nat)
    requires Below(par, target, from) && i < j < |from|
    ensures from[i] < from[j]
    decreases j
  {
    assert HangsAt(par, target, from, j);
    if i < j - 1 { Increasing(par, target, from, i, j - 1); }
  }

  lemma BelowFront(par: Parents, target: int, from: seq<int>)
    requires Below(par, target, from) && from != [] && HangsAt(par, target, from, |from| - 1)
    ensures var p, front := from[|from| - 1], from[..|from| - 1];
            Below(Flattened(par, p), target, front) && Below(par, target, front)
  {
    var p, front := from[|from| - 1], from[..|from| - 1];
    assert HangsAt(par, target, from, |from| - 1);
    forall j: nat | j < |front| ensures HangsAt(Flattened(par, p), target, front, j) && HangsAt(par, target, front, j) {
      assert HangsAt(par, target, from, j);
      Increasing(par, target, from, j, |from| - 1);
    }
  }

  lemma RehungStep(par: Parents, front: seq<int>, p: int, target: int)
    requires 0 <= p < |par| && par[p] == (if front == [] then target else front[|front| - 1])
    ensures Rehung(Flattened(par, p), front, target) == Rehung(par, front + [p], target)
  {
    forall x | 0 <= x < |par| ensures Rehung(Flattened(par, p), front, target)[x] == Rehung(par, front + [p], target)[x] {
      assert par[x] in front + [p] <==> par[x] in front || par[x] == p;
      assert front != [] ==> par[p] in front;
    }
  }

  /** Flattening the tags one by one hangs all they had from the target. */
  lemma {:induction false} FlattenAllIsRehung(par: Parents, target: int, from: seq<int>)
    requires Below(par, target, from)
    ensures FlattenAll(par, from) == Rehung(par, from, target)
    decreases |from|
  {
    if from != [] {
      var p, front := from[|from| - 1], from[..|from| - 1];
      assert HangsAt(par, target, from, |from| - 1);
      BelowFront(par, target, from);
      FlattenAllIsRehung(Flattened(par, p), target, front);
      RehungStep(par, front, p, target);
      assert from == front + [p];
    }
  }

  lemma {:induction false} FlattenAllKeeps(par: Parents, target: int, from: seq<int>, x: int, k: int)
    requires PreOrder(par) && Below(par, target, from) && k < |par|
    ensures PreOrder(FlattenAll(par, from))
    ensures x !in from ==> (Above(FlattenAll(par, from), x, k) <==> Above(par, x, k))
    decreases |from|
  {
    if from != [] {
      var p, front := from[|from| - 1], from[..|from| - 1];
      assert from == front + [p];
      assert HangsAt(par, target, from, |from| - 1);
      BelowFront(par, target, from);
      FlattenedPreOrder(par, p);
      FlattenedAbove(par, p, x, k);
      FlattenAllKeeps(Flattened(par, p), target, front, x, k);
    }
  }

  /** What stands above the target keeps its way from the root. */
  lemma {:induction false} PathRehung(par: Parents, from: seq<int>, target: int, k: int)
    requires ParentsOk(par) && ParentsOk(Rehung(par, from, target)) && 0 <= k < |par| && Deeper(k, from)
    ensures PathTo(Rehung(par, from, target), k) == PathTo(par, k)
    decreases k
  {
    if k > 0 { PathRehung(par, from, target, par[k]); }
  }

  predicate Deeper(k: int, from: seq<int>) {
    forall y :: y in from ==> k < y
  }

  /** The open tags below number k of the stack. */
  lemma StackBelow(d: Doc, k: nat)
    requires DocOk(d) && 0 < k < |d.stack|
    ensures Below(d.par, d.stack[k], d.stack[k + 1..])
    ensures Deeper(d.stack[k], d.stack[k + 1..])
    ensures d.stack == d.stack[..k] + [d.stack[k]] + d.stack[k + 1..]
    ensures 0 <= d.stack[k - 1] < d.stack[k] < |d.par| && d.par[d.stack[k]] == d.stack[k - 1]
  {
    PathAbove(d.par, Top(d));
    assert PathStep(d.par, d.stack, k);
    var from := d.stack[k + 1..];
    forall j: nat | j < |from| ensures HangsAt(d.par, d.stack[k], from, j) {
      assert from[j] == d.stack[k + 1 + j] && (j > 0 ==> from[j - 1] == d.stack[k + j]);
      assert PathStep(d.par, d.stack, k + 1 + j);
      StackIncreases(d, k, k + 1 + j);
    }
    forall y | y in from ensures d.stack[k] < y {
      var j :| 0 <= j < |from| && from[j] == y;
      assert HangsAt(d.par, d.stack[k], from, j);
    }
  }

  lemma {:induction false} StackIncreases(d: Doc, i: nat, j: nat)
    requires DocOk(d) && i < j < |d.stack|
    ensures d.stack[i] < d.stack[j]
    decreases j
  {
    PathAbove(d.par, Top(d));
    assert PathStep(d.par, d.stack, j);
    if i < j - 1 { StackIncreases(d, i, j - 1); }
  }

  lemma RehungAccounted(d: Doc, k: nat)
    requires DocOk(d) && 0 < k < |d.stack|
    ensures var i := d.stack[k];
            Accounted(Rehung(d.par, d.stack[k + 1..], i), d.nodes[i := d.nodes[i].(closed := true)], d.stack[..k])
  {
    StackBelow(d, k);
  }

  lemma RehungEdge(par: Parents, i: int, from: seq<int>, top: int)
    requires PreOrder(par) && Below(par, i, from) && Deeper(i, from) && 0 <= top < i < |par| && OnEdge(par, top)
    ensures var par1 := Rehung(par, from, i);
            PreOrder(par1) && OnEdge(par1, top) && PathTo(par1, top) == PathTo(par, top)
  {
    FlattenAllIsRehung(par, i, from);
    FlattenAllKeeps(par, i, from, top, |par| - 1);
    PathRehung(par, from, i, top);
  }

  /** The right edge after a closing tag: what is left of the open tags. */
  lemma ClosedEdge(d: Doc, k: nat)
    requires DocOk(d) && 0 < k < |d.stack|
    ensures var par1, top := Rehung(d.par, d.stack[k + 1..], d.stack[k]), d.stack[k - 1];
            PreOrder(par1) && 0 <= top < |par1| && OnEdge(par1, top) && PathTo(par1, top) == d.stack[..k]
  {
    StackBelow(d, k);
    TopAbove(d, k - 1);
    RehungEdge(d.par, d.stack[k], d.stack[k + 1..], d.stack[k - 1]);
    PathPrefix(d.par, Top(d), k - 1);
  }

  lemma TopAbove(d: Doc, k: nat)
    requires DocOk(d) && k < |d.stack|
    ensures 0 <= d.stack[k] < |d.par| && OnEdge(d.par, d.stack[k])
  {
    PathAbove(d.par, Top(d));
    assert d.stack[k] in d.stack;
    AboveTransitive(d.par, d.stack[k], Top(d), |d.par| - 1);
  }

  lemma ClosedKeeps(d: Doc, k: nat)
    requires DocOk(d) && 0 < k < |d.stack|
    ensures DocOk(Closed(d, k))
  {
    var e := Closed(d, k);
    ClosedEdge(d, k);
    RehungAccounted(d, k);
    assert Top(e) == d.stack[k - 1];
    forall j | 0 <= j < k ensures e.nodes[e.stack[j]].isTag {
      assert e.stack[j] == d.stack[j];
    }
  }

  lemma CloseKeeps(d: Doc, node: Node)
    requires DocOk(d)
    ensures DocOk(Close(d, node))
  {
    AddLeafKeeps(d, AsComment(node));
    var k := Match(d.nodes, d.stack, node.name);
    if k > 0 { ClosedKeeps(d, k); }
  }

  // ----- whole documents -----

  datatype Event = Open(node: Node) | Closing(node: Node) | Text(node: Node) | Comment(node: Node)

  /** Tags have a name, and nothing is closed yet. */
  predicate EventOk(e: Event) {
    !e.node.closed && (e.Open? || e.Closing? ==> e.node.isTag && e.node.name != "")
  }

  function Step(d: Doc, e: Event): Doc
    requires DocOk(d)
  {
    match e
    case Open(node) => AddOpen(d, node)
    case Closing(node) => Close(d, node)
    case Text(node) => AddLeaf(d, node)
    case Comment(node) => AddLeaf(d, node)
  }

  function Run(events: seq<Event>): (d: Doc)
    requires forall i :: 0 <= i < |events| ==> EventOk(events[i])
    ensures DocOk(d)
  {
    if events == [] then StartOk(); Start()
    else
      var before := Run(events[..|events| - 1]);
      StepKeeps(before, events[|events| - 1]);
      Step(before, events[|events| - 1])
  }

  lemma StartOk()
    ensures DocOk(Start())
  {
    assert PathTo([-1], 0) == [0];
  }

  lemma StepKeeps(d: Doc, e: Event)
    requires DocOk(d) && EventOk(e)
    ensures DocOk(Step(d, e))
  {
    match e
    case Open(node) => AddOpenKeeps(d, node);
    case Closing(node) => CloseKeeps(d, node);
    case Text(node) => AddLeafKeeps(d, node);
    case Comment(node) => AddLeafKeeps(d, node);
  }

  // ----- the parser's tree builder -----

  class ParserDom {
    const tree: Tree
    var nodes: seq<Node>
    var current: int      // mCurrentState

    ghost var doc: Doc    // the document that has been built

    ghost predicate Valid()
      reads this, tree
    {
      tree.Valid() && DocOk(doc) && doc.par == tree.parent && doc.nodes == nodes && Top(doc) == current
    }

    /** `beginParsing` */
    constructor ()
      ensures Valid() && doc == Start() && fresh(tree)
    {
      StartOk();
      tree := new Tree();
      nodes := [ROOT];
      current := 0;
      doc := Start();
    }

    /** `foundText` and `foundComment`; the current state stays. */
    method FoundContent(node: Node)
      requires Valid()
      modifies this, tree
      ensures Valid() && doc == AddLeaf(old(doc), node)
    {
      AddLeafKeeps(doc, node);
      var child := tree.AppendChild(current);
      nodes := nodes + [node];
      doc := AddLeaf(doc, node);
    }

    method OpenTag(node: Node)
      requires Valid() && node.isTag
      modifies this, tree
      ensures Valid() && doc == AddOpen(old(doc), node)
    {
      AddOpenKeeps(doc, node);
      var nextState := tree.AppendChild(current);
      nodes := nodes + [node];
      current := nextState;
      doc := AddOpen(doc, node);
    }

    /** The loop that flattens the tags that were waiting for a closing tag. */
    method FlattenPath(path: seq<int>, ghost target: int, ghost from: seq<int>)
      requires tree.Valid() && Below(tree.parent, target, from) && |path| == |from|
      requires forall j :: 0 <= j < |path| ==> path[j] == from[|from| - 1 - j]
      modifies tree
      ensures tree.Valid() && tree.parent == Rehung(old(tree.parent), from, target)
    {
      ghost var par := tree.parent;
      FlattenAllIsRehung(par, target, from);
      assert from[..|from|] == from;
      for j := 0 to |path|
        invariant tree.Valid() && |tree.parent| == |par|
        invariant FlattenAll(tree.parent, from[..|from| - j]) == FlattenAll(par, from)
      {
        assert HangsAt(par, target, from, |from| - 1 - j);
        FlattenNext(tree.parent, from, |from| - j);
        tree.Flatten(path[j]);
      }
    }

    /** A closing tag for open tag i, number k of the stack. */
    method CloseOpen(i: int, path: seq<int>, ghost k: nat)
      requires Valid() && 0 < k < |doc.stack| && i == doc.stack[k] && PathDown(doc.stack, k, path)
      modifies this, tree
      ensures Valid() && 0 <= i < |old(doc.nodes)| && doc == Closed(old(doc), k)
    {
      ClosedFacts(doc, k);
      FlattenPath(path, i, doc.stack[k + 1..]);
      nodes := nodes[i := nodes[i].(closed := true)];
      current := tree.parent[i];
      doc := Closed(doc, k);
    }

    method CloseTag(node: Node)
      requires Valid()
      modifies this, tree
      ensures Valid() && doc == Close(old(doc), node)
    {
      DocStack(doc);
      MatchUp(doc.par, nodes, doc.stack, 0, node.name);
      var i, path := FindOpen(tree.parent, nodes, current, node.name, doc.stack);
      ghost var k := Match(nodes, doc.stack, node.name);
      if i != 0 {
        CloseOpen(i, path, k);
      } else {
        FoundContent(AsComment(node));
      }
    }

    /** `foundTag` */
    method FoundTag(node: Node, isEnd: bool)
      requires Valid() && node.isTag
      modifies this, tree
      ensures Valid() && doc == if isEnd then Close(old(doc), node) else AddOpen(old(doc), node)
    {
      if isEnd {
        CloseTag(node);
      } else {
        OpenTag(node);
      }
    }

    method Found(e: Event)
      requires Valid() && EventOk(e)
      modifies this, tree
      ensures Valid() && doc == Step(old(doc), e)
    {
      match e
      case Open(node) => FoundTag(node, false);
      case Closing(node) => FoundTag(node, true);
      case Text(node) => FoundContent(node);
      case Comment(node) => FoundContent(node);
    }
  }

  /** The nodes without the marks that closing tags leave. */
  function Erased(nodes: seq<Node>): (r: seq<Node>)
    ensures |r| == |nodes|
  {
    seq(|nodes|, i requires 0 <= i < |nodes| => nodes[i].(closed := false))
  }

  /** The nodes that a finding leaves in the document: none for a closing tag that matches an open one. */
  function Left(d: Doc, e: Event): seq<Node>
    requires DocOk(d)
  {
    if !e.Closing? then [e.node]
    else if Match(d.nodes, d.stack, e.node.name) > 0 then []
    else [AsComment(e.node)]
  }

  /** What all findings leave, in their order. */
  function AllLeft(events: seq<Event>): seq<Node>
    requires forall i :: 0 <= i < |events| ==> EventOk(events[i])
  {
    if events == [] then []
    else AllLeft(events[..|events| - 1]) + Left(Run(events[..|events| - 1]), events[|events| - 1])
  }

  lemma StepNodes(d: Doc, e: Event)
    requires DocOk(d) && EventOk(e)
    ensures Erased(Step(d, e).nodes) == Erased(d.nodes) + Left(d, e)
  {
  }

  /** The nodes in the order of their numbers, which is pre-order, are the findings in the order of the document. */
  lemma {:induction false} DocumentOrder(events: seq<Event>)
    requires forall i :: 0 <= i < |events| ==> EventOk(events[i])
    ensures Erased(Run(events).nodes) == [ROOT] + AllLeft(events)
  {
    if events == [] {
      assert Erased([ROOT]) == [ROOT] + [];
    } else {
      var front, e := events[..|events| - 1], events[|events| - 1];
      DocumentOrder(front);
      StepNodes(Run(front), e);
      Associate([ROOT], AllLeft(front), Left(Run(front), e));
    }
  }

  /** The tags of a stack below number k, the lowest first. */
  predicate PathDown(stack: seq<int>, k: nat, path: seq<int>) {
    |path| + k + 1 == |stack| && forall j :: 0 <= j < |path| ==> path[j] == stack[|stack| - 1 - j]
  }

  predicate StackAt(par: Parents, stack: seq<int>, i: nat)
    requires i < |stack|
  {
    0 <= stack[i] < |par| && (stack[i] == 0 <==> i == 0) && (i > 0 ==> par[stack[i]] == stack[i - 1])
  }

  /** Only the first of the open tags is the root, and the others hang from the one before. */
  predicate StackOk(par: Parents, nodes: seq<Node>, stack: seq<int>) {
    |nodes| == |par| && stack != [] && forall i: nat :: i < |stack| ==> StackAt(par, stack, i)
  }

  lemma DocStack(d: Doc)
    requires DocOk(d)
    ensures StackOk(d.par, d.nodes, d.stack)
  {
    PathAbove(d.par, Top(d));
    forall i: nat | i < |d.stack| ensures StackAt(d.par, d.stack, i) {
      if i > 0 { assert PathStep(d.par, d.stack, i); }
    }
  }

  /** One step of the search. */
  lemma MatchUp(par: Parents, nodes: seq<Node>, stack: seq<int>, k: nat, name: string)
    requires StackOk(par, nodes, stack) && k < |stack|
    ensures (forall i :: 0 <= i < |stack| ==> 0 <= stack[i] < |nodes|)
    ensures k > 0 ==>
              Match(nodes, stack[..k + 1], name) == if SameName(nodes[stack[k]].name, name) then k else Match(nodes, stack[..k], name)
    ensures k == 0 ==> Match(nodes, stack[..k + 1], name) == 0
  {
    forall i | 0 <= i < |stack| ensures 0 <= stack[i] < |nodes| { assert StackAt(par, stack, i); }
    assert stack[..k + 1][..k] == stack[..k];
  }

  /** The climb from the current tag to one of the given name; `path` holds the tags that were passed. */
  method FindOpen(par: Parents, nodes: seq<Node>, current: int, name: string, ghost stack: seq<int>)
    returns (i: int, path: seq<int>)
    requires StackOk(par, nodes, stack) && current == stack[|stack| - 1]
    requires forall i :: 0 <= i < |stack| ==> 0 <= stack[i] < |nodes|
    ensures var k := Match(nodes, stack, name); i == stack[k] && (i == 0 <==> k == 0) && PathDown(stack, k, path)
  {
    i := current;
    path := [];
    ghost var k := |stack| - 1;
    assert stack[..k + 1] == stack && StackAt(par, stack, k);
    while i != 0
      invariant 0 <= k < |stack| && i == stack[k] && StackAt(par, stack, k) && PathDown(stack, k, path)
      invariant Match(nodes, stack[..k + 1], name) == Match(nodes, stack, name)
      decreases k
    {
      MatchUp(par, nodes, stack, k, name);
      if SameName(nodes[i].name, name) {
        return;
      }
      assert StackAt(par, stack, k - 1);
      path := path + [i];
      i := par[i];
      k := k - 1;
    }
    MatchUp(par, nodes, stack, 0, name);
  }

  /** Closing leaves the closed tag where it hangs, below the new top. */
  lemma ClosedFacts(d: Doc, k: nat)
    requires DocOk(d) && 0 < k < |d.stack|
    ensures 0 <= d.stack[k] < |d.nodes| && DocOk(Closed(d, k)) && Below(d.par, d.stack[k], d.stack[k + 1..])
    ensures Closed(d, k).par[d.stack[k]] == Top(Closed(d, k))
  {
    StackBelow(d, k);
    ClosedKeeps(d, k);
    assert d.par[d.stack[k]] == d.stack[k - 1] && d.stack[k - 1] !in d.stack[k + 1..];
  }

  /** From a whole sequence of findings the builder makes the document that the machine makes. */
  method ParseAll(events: seq<Event>) returns (dom: ParserDom)
    requires forall i :: 0 <= i < |events| ==> EventOk(events[i])
    ensures dom.Valid() && dom.doc == Run(events)
  {
    dom := new ParserDom();
    for i := 0 to |events|
      invariant fresh(dom) && fresh(dom.tree) && dom.Valid() && dom.doc == Run(events[..i])
    {
      assert events[..i + 1][..i] == events[..i];
      dom.Found(events[i]);
    }
    assert events[..|events|] == events;
  }
}
