/** The breadth-first search for shortest leak chains (`find_leak_chains`). */
module LeakChains {
  import opened HprofHeap

  datatype RefNode = RefNode(referent: Id, super: Option<(Id, Reference)>, depth: nat)

  type Chain = seq<(Id, Option<Reference>)>

  // ----- what a chain should be

  predicate StepAt(g: Graph, p: seq<Id>, i: int) {
    0 <= i < |p| - 1 ==> Edge(g, p[i], p[i + 1])
  }

  ghost predicate IsPath(g: Graph, p: seq<Id>) {
    |p| > 0 && forall i :: StepAt(g, p, i)
  }

  /** A path from some GC root to `x`; it has `|p| - 1` references. */
  ghost predicate RootPath(g: Graph, roots: seq<Id>, p: seq<Id>, x: Id) {
    IsPath(g, p) && p[0] in roots && p[|p| - 1] == x
  }

  ghost predicate ReachableFrom(g: Graph, roots: seq<Id>, x: Id) {
    exists p :: RootPath(g, roots, p, x)
  }

  function Ids(c: Chain): seq<Id> {
    seq(|c|, i requires 0 <= i < |c| => c[i].0)
  }

  /** Each entry but the last carries the reference to its successor. */
  ghost predicate Labelled(g: Graph, c: Chain) {
    && |c| > 0 && c[|c| - 1].1.None?
    && forall i :: LinkAt(g, c, i)
  }

  predicate LinkAt(g: Graph, c: Chain, i: int) {
    0 <= i < |c| - 1 ==> Link(g, c[i], c[i + 1])
  }

  predicate Link(g: Graph, a: (Id, Option<Reference>), b: (Id, Option<Reference>)) {
    Edge(g, a.0, b.0) && a.1 == Some(g[a.0][b.0])
  }

  ghost predicate GoodChain(g: Graph, roots: seq<Id>, leak: Id, c: Chain) {
    && Labelled(g, c)
    && RootPath(g, roots, Ids(c), leak)
    && forall p :: RootPath(g, roots, p, leak) ==> |c| <= |p|
  }

  // ----- the search

  type Traversed = map<Id, RefNode>

  predicate GoodNode(g: Graph, roots: seq<Id>, t: Traversed, x: Id)
    requires x in t
  {
    var n := t[x];
    && n.referent == x
    && match n.super
       case None => n.depth == 0 && x in roots
       case Some((r, ref)) =>
         && x !in roots && r in t && t[r].depth + 1 == n.depth
         && Edge(g, r, x) && ref == g[r][x]
  }

  ghost predicate GoodNodes(g: Graph, roots: seq<Id>, t: Traversed) {
    && (forall x {:trigger GoodNode(g, roots, t, x)} :: x in t ==> GoodNode(g, roots, t, x))
    && (forall x :: x in roots ==> x in t && t[x].depth == 0)
  }

  /** All successors of `x` are known, no deeper than one below it. */
  ghost predicate Expanded(g: Graph, t: Traversed, x: Id)
    requires x in t
  {
    forall y :: Edge(g, x, y) ==> y in t && t[y].depth <= t[x].depth + 1
  }

  predicate Waiting(t: Traversed, q: seq<RefNode>, x: Id) {
    x in t && t[x] in q
  }

  /** The queue: known nodes, in order of depth, spanning at most two depths, and
      all of the deepest known nodes are in it. */
  ghost predicate GoodQueue(t: Traversed, q: seq<RefNode>, d: nat) {
    && (forall i :: 0 <= i < |q| ==> q[i].referent in t && t[q[i].referent] == q[i] && d <= q[i].depth <= d + 1)
    && (forall i, j :: 0 <= i < j < |q| ==> q[i].depth <= q[j].depth)
    && (forall x :: x in t ==> t[x].depth <= d + 1)
    && (forall x {:trigger Waiting(t, q, x)} :: x in t && t[x].depth == d + 1 ==> Waiting(t, q, x))
  }

  /** Everything that is known and not waiting has been expanded. */
  ghost predicate Closed(g: Graph, t: Traversed, q: seq<RefNode>) {
    forall x {:trigger Expanded(g, t, x)} :: x in t && !Waiting(t, q, x) ==> Expanded(g, t, x)
  }

  /** Along any path, the first `d` nodes are known at no more than their position. */
  lemma {:induction false} PathPrefixKnown(g: Graph, roots: seq<Id>, t: Traversed, p: seq<Id>, d: nat, i: nat)
    requires GoodNodes(g, roots, t) && IsPath(g, p) && p[0] in roots
    requires forall x {:trigger Expanded(g, t, x)} :: x in t && t[x].depth < d ==> Expanded(g, t, x)
    requires i < |p| && i <= d
    ensures p[i] in t && t[p[i]].depth <= i
  {
    if i > 0 {
      PathPrefixKnown(g, roots, t, p, d, i - 1);
      var x, y := p[i - 1], p[i];
      assert StepAt(g, p, i - 1);
      assert Expanded(g, t, x) && Edge(g, x, y);
    } else {
      assert p[i] == p[0];
    }
  }

  /** A path to an unknown object is longer than `d` references. */
  lemma UnknownIsFar(g: Graph, roots: seq<Id>, t: Traversed, d: nat, leak: Id)
    requires GoodNodes(g, roots, t) && leak !in t
    requires forall x {:trigger Expanded(g, t, x)} :: x in t && t[x].depth < d ==> Expanded(g, t, x)
    ensures forall p :: RootPath(g, roots, p, leak) ==> |p| > d + 1
  {
    forall p | RootPath(g, roots, p, leak) ensures |p| > d + 1 {
      if |p| <= d + 1 {
        PathPrefixKnown(g, roots, t, p, d, |p| - 1);
      }
    }
  }

  lemma UnknownIsUnreachable(g: Graph, roots: seq<Id>, t: Traversed, leak: Id)
    requires GoodNodes(g, roots, t) && leak !in t
    requires forall x {:trigger Expanded(g, t, x)} :: x in t ==> Expanded(g, t, x)
    ensures !ReachableFrom(g, roots, leak)
  {
    forall p ensures !RootPath(g, roots, p, leak) {
      UnknownIsFar(g, roots, t, |p|, leak);
    }
  }

  ghost function Universe(g: Graph, roots: seq<Id>): set<Id> {
    (set x | x in roots) + (set a, b | a in g && b in g[a] :: b)
  }

  method Seed(roots: seq<Id>, ghost g: Graph) returns (t: Traversed, q: seq<RefNode>)
    ensures GoodNodes(g, roots, t) && GoodQueue(t, q, 0) && Closed(g, t, q)
    ensures t.Keys == set x | x in roots
  {
    t, q := map[], [];
    for i := 0 to |roots|
      invariant t.Keys == set x | x in roots[..i]
      invariant forall x :: x in t ==> t[x] == RefNode(x, None, 0) && t[x] in q
      invariant forall n :: n in q ==> n.referent in t && t[n.referent] == n
    {
      var node := RefNode(roots[i], None, 0);
      t := t[roots[i] := node];
      q := q + [node];
      assert roots[..i + 1] == roots[..i] + [roots[i]];
    }
    assert roots[..|roots|] == roots;
    forall x | x in t ensures GoodNode(g, roots, t, x) {}
  }

  /** `t` only grows: known nodes keep their record. */
  ghost predicate Extends(t: Traversed, t': Traversed) {
    forall x :: x in t ==> x in t' && t'[x] == t[x]
  }

  ghost predicate ClosedBut(g: Graph, t: Traversed, q: seq<RefNode>, current: Id) {
    forall x {:trigger Expanded(g, t, x)} :: x in t && !Waiting(t, q, x) && x != current ==> Expanded(g, t, x)
  }

  function NextNode(g: Graph, node: RefNode, y: Id): RefNode
    requires Edge(g, node.referent, y)
  {
    RefNode(y, Some((node.referent, g[node.referent][y])), node.depth + 1)
  }

  lemma AddToNodes(g: Graph, roots: seq<Id>, t: Traversed, node: RefNode, y: Id)
    requires GoodNodes(g, roots, t) && Edge(g, node.referent, y) && y !in t
    requires node.referent in t && t[node.referent] == node
    ensures GoodNodes(g, roots, t[y := NextNode(g, node, y)])
  {
    var t' := t[y := NextNode(g, node, y)];
    forall x | x in t' ensures GoodNode(g, roots, t', x) {
      if x != y { assert GoodNode(g, roots, t, x); }
    }
  }

  lemma AddToQueue(t: Traversed, q: seq<RefNode>, d: nat, n: RefNode)
    requires GoodQueue(t, q, d) && n.referent !in t && n.depth == d + 1
    ensures GoodQueue(t[n.referent := n], q + [n], d)
  {
    var t', q' := t[n.referent := n], q + [n];
    forall x | x in t' && t'[x].depth == d + 1 ensures Waiting(t', q', x) {
      if x == n.referent {
        assert q'[|q|] == n;
      } else {
        assert Waiting(t, q, x);
        var i :| 0 <= i < |q| && q[i] == t[x];
        assert q'[i] == t[x];
      }
    }
  }

  lemma AddToClosed(g: Graph, t: Traversed, q: seq<RefNode>, current: Id, n: RefNode)
    requires ClosedBut(g, t, q, current) && n.referent !in t
    ensures ClosedBut(g, t[n.referent := n], q + [n], current)
  {
    var t', q' := t[n.referent := n], q + [n];
    assert q'[|q|] == n;
    forall x | x in t' && !Waiting(t', q', x) && x != current ensures Expanded(g, t', x) {
      assert x != n.referent;
      assert !Waiting(t, q, x) by {
        assert forall i :: 0 <= i < |q| ==> q[i] == q'[i];
      }
      assert Expanded(g, t, x);
    }
  }

  lemma FoundIsNearest(g: Graph, roots: seq<Id>, t: Traversed, q: seq<RefNode>, node: RefNode, leak: Id)
    requires GoodNodes(g, roots, t) && GoodQueue(t, q, node.depth) && ClosedBut(g, t, q, node.referent)
    requires node.referent in t && t[node.referent] == node && leak !in t
    ensures forall p :: RootPath(g, roots, p, leak) ==> |p| >= node.depth + 2
  {
    UnknownIsFar(g, roots, t, node.depth, leak);
  }

  /** The inner loop: all references of one node. */
  method Expand(g: Graph, ghost roots: seq<Id>, leak: Id, node: RefNode, t0: Traversed, q0: seq<RefNode>)
    returns (t: Traversed, q: seq<RefNode>, found: bool)
    requires GoodNodes(g, roots, t0) && GoodQueue(t0, q0, node.depth) && ClosedBut(g, t0, q0, node.referent)
    requires node.referent in t0 && t0[node.referent] == node
    requires t0.Keys <= Universe(g, roots) && (leak in t0 ==> leak in roots)
    ensures GoodNodes(g, roots, t) && t0.Keys <= t.Keys <= Universe(g, roots) && Extends(t0, t)
    ensures found ==> && leak in t && leak !in roots && t[leak].depth == node.depth + 1
                      && forall p :: RootPath(g, roots, p, leak) ==> |p| >= node.depth + 2
    ensures !found ==> && GoodQueue(t, q, node.depth) && Closed(g, t, q) && (leak in t ==> leak in roots)
                       && (t.Keys == t0.Keys ==> q == q0)
  {
    t, q, found := t0, q0, false;
    var row := Row(g, node.referent);
    var rest := row.Keys;
    while rest != {}
      invariant rest <= row.Keys
      invariant GoodNodes(g, roots, t) && GoodQueue(t, q, node.depth) && ClosedBut(g, t, q, node.referent)
      invariant t0.Keys <= t.Keys <= Universe(g, roots) && Extends(t0, t) && (leak in t ==> leak in roots)
      invariant t.Keys == t0.Keys ==> q == q0
      invariant forall y :: y in row.Keys - rest ==> y in t
    {
      var referent := Pick(rest);
      rest := rest - {referent};
      if referent in t && t[referent].depth <= node.depth + 1 {
        continue;
      }
      var next := RefNode(referent, Some((node.referent, row[referent])), node.depth + 1);
      AddToNodes(g, roots, t, node, referent);
      if leak == referent {
        FoundIsNearest(g, roots, t, q, node, leak);
        t, found := t[referent := next], true;
        return;
      }
      AddToQueue(t, q, node.depth, next);
      AddToClosed(g, t, q, node.referent, next);
      t, q := t[referent := next], q + [next];
    }
    assert Expanded(g, t, node.referent);
    forall x | x in t && !Waiting(t, q, x) ensures Expanded(g, t, x) {}
  }

  /** The outer loop. */
  method Search(g: Graph, roots: seq<Id>, leak: Id) returns (t: Traversed, found: bool)
    ensures GoodNodes(g, roots, t)
    ensures found ==> && leak in t && leak !in roots
                      && forall p :: RootPath(g, roots, p, leak) ==> |p| >= t[leak].depth + 1
    ensures !found ==> leak in roots || !ReachableFrom(g, roots, leak)
  {
    var waiting;
    t, waiting := Seed(roots, g);
    found := false;
    ghost var d: nat, all := 0, Universe(g, roots);
    while waiting != []
      invariant all == Universe(g, roots)
      invariant GoodNodes(g, roots, t) && GoodQueue(t, waiting, d) && Closed(g, t, waiting)
      invariant t.Keys <= all && (leak in t ==> leak in roots)
      decreases all - t.Keys, |waiting|
    {
      var node := waiting[0];
      Popped(g, roots, t, waiting, d);
      d := node.depth;
      ghost var known := t.Keys;
      t, waiting, found := Expand(g, roots, leak, node, t, waiting[1..]);
      if found {
        return;
      }
      RestShrinks(all, known, t.Keys);
    }
    if leak !in roots {
      UnknownIsUnreachable(g, roots, t, leak);
    }
  }

  lemma RestShrinks(all: set<Id>, before: set<Id>, after: set<Id>)
    requires before <= after <= all
    ensures before == after || all - after < all - before
  {
    if forall y :: y in after ==> y in before {
      assert before == after;
    } else {
      var y :| y in after && y !in before;
      assert y in all - before;
    }
  }

  lemma Popped(g: Graph, roots: seq<Id>, t: Traversed, q: seq<RefNode>, d: nat)
    requires q != [] && GoodNodes(g, roots, t) && GoodQueue(t, q, d) && Closed(g, t, q)
    ensures GoodQueue(t, q[1..], q[0].depth) && ClosedBut(g, t, q[1..], q[0].referent)
  {
    forall x | x in t && x != q[0].referent ensures Waiting(t, q, x) <==> Waiting(t, q[1..], x) {
      assert GoodNode(g, roots, t, x);
      assert q == [q[0]] + q[1..];
    }
    assert GoodNode(g, roots, t, q[0].referent);
    forall x | x in t && t[x].depth == q[0].depth + 1 ensures Waiting(t, q[1..], x) {
      assert q[0].depth == d;
      assert Waiting(t, q, x);
    }
  }

  // ----- the back-trace

  function Reversed(c: Chain): Chain {
    seq(|c|, i requires 0 <= i < |c| => c[|c| - 1 - i])
  }

  /** The chain read backwards: it ends at `x`, and every entry carries the
      reference to the one before it. */
  ghost predicate Backward(g: Graph, c: Chain, leak: Id) {
    && |c| > 0 && c[0] == (leak, None)
    && forall i :: BackLinkAt(g, c, i)
  }

  predicate BackLinkAt(g: Graph, c: Chain, i: int) {
    1 <= i < |c| ==> Link(g, c[i], c[i - 1])
  }

  lemma BackwardSnoc(g: Graph, c: Chain, leak: Id, e: (Id, Option<Reference>))
    requires Backward(g, c, leak) && Link(g, e, c[|c| - 1])
    ensures Backward(g, c + [e], leak)
  {
    var c' := c + [e];
    forall i ensures BackLinkAt(g, c', i) {
      assert BackLinkAt(g, c, i);
    }
  }

  method BackTrace(ghost g: Graph, ghost roots: seq<Id>, t: Traversed, leak: Id) returns (c: Chain)
    requires GoodNodes(g, roots, t) && leak in t
    ensures Labelled(g, c) && RootPath(g, roots, Ids(c), leak) && |c| == t[leak].depth + 1
  {
    var back: Chain := [];
    var current, reference := Some(leak), None;
    while current.Some?
      invariant current.Some? ==> current.value in t && |back| + t[current.value].depth == t[leak].depth
      invariant if back == [] then current == Some(leak) && reference == None
                else Backward(g, back, leak)
      invariant back != [] && current.Some? ==>
                  Link(g, (current.value, reference), back[|back| - 1])
      invariant current.None? ==> back != [] && back[|back| - 1].0 in roots && |back| == t[leak].depth + 1
      decreases current.Some?, if current.Some? then t[current.value].depth else 0
    {
      assert GoodNode(g, roots, t, current.value);
      if back != [] { BackwardSnoc(g, back, leak, (current.value, reference)); }
      back := back + [(current.value, reference)];
      match t[current.value].super {
        case Some((r, ref)) => current, reference := Some(r), Some(ref);
        case None => current := None;
      }
    }
    c := Reversed(back);
    ReversedIsLabelled(g, back, leak);
    LabelledIsPath(g, c);
    assert Ids(c)[0] == back[|back| - 1].0 && Ids(c)[|c| - 1] == back[0].0;
  }

  lemma ReversedIsLabelled(g: Graph, back: Chain, leak: Id)
    requires Backward(g, back, leak)
    ensures Labelled(g, Reversed(back))
  {
    var c := Reversed(back);
    forall i ensures LinkAt(g, c, i) {
      assert BackLinkAt(g, back, |back| - 1 - i);
    }
  }

  lemma LabelledIsPath(g: Graph, c: Chain)
    requires Labelled(g, c)
    ensures IsPath(g, Ids(c))
  {
    var p := Ids(c);
    forall i ensures StepAt(g, p, i) {
      assert LinkAt(g, c, i);
    }
  }

  // ----- the whole search

  /** A tracked object gets a chain exactly when it is not itself a GC root and some
      GC root reaches it; its chain is then a shortest path from a GC root, every
      entry carrying the reference to its successor. */
  method FindLeakChains(g: Graph, roots: seq<Id>, tracked: seq<Id>) returns (ret: map<Id, Chain>)
    ensures forall leak :: leak in ret <==> leak in tracked && leak !in roots && ReachableFrom(g, roots, leak)
    ensures forall leak :: leak in ret ==> GoodChain(g, roots, leak, ret[leak])
  {
    ret := map[];
    for i := 0 to |tracked|
      invariant forall leak :: leak in ret <==> leak in tracked[..i] && leak !in roots && ReachableFrom(g, roots, leak)
      invariant forall leak :: leak in ret ==> GoodChain(g, roots, leak, ret[leak])
    {
      var leak := tracked[i];
      var t, found := Search(g, roots, leak);
      if found {
        var c := BackTrace(g, roots, t, leak);
        assert GoodChain(g, roots, leak, c);
        ret := ret[leak := c];
      }
      assert tracked[..i + 1] == tracked[..i] + [leak];
    }
    assert tracked[..|tracked|] == tracked;
  }
}
