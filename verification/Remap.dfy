/** Cloning a strategy: every node id gets the same suffix, and the graph stays the same shape. */
module Remap {
  import opened Ordering
  import opened Graph
  import opened TopoSort
  import opened Closure

  function Suffixed(id: Id, suffix: string): Id
  {
    id + "_" + suffix
  }

  lemma SuffixInjective(a: Id, b: Id, suffix: string)
    requires Suffixed(a, suffix) == Suffixed(b, suffix)
    ensures a == b
  {
    var s, t := Suffixed(a, suffix), Suffixed(b, suffix);
    assert |a| == |b|;
    assert s[..|a|] == a && t[..|b|] == b;
  }

  function RenamedNode(n: Node, suffix: string): Node
  {
    n.(id := Suffixed(n.id, suffix))
  }

  function RenamedEdge(e: Edge, suffix: string): Edge
  {
    e.(id := e.id + "_" + suffix, source := Suffixed(e.source, suffix), target := Suffixed(e.target, suffix))
  }

  function RenamedNodes(nodes: seq<Node>, suffix: string): seq<Node>
  {
    seq(|nodes|, i requires 0 <= i < |nodes| => RenamedNode(nodes[i], suffix))
  }

  /** Edges whose ends are both nodes are renamed, others are dropped. */
  function RenamedEdges(edges: seq<Edge>, ids: set<Id>, suffix: string): seq<Edge>
  {
    if edges == [] then []
    else
      var e := edges[|edges| - 1];
      RenamedEdges(edges[..|edges| - 1], ids, suffix) +
      if e.source in ids && e.target in ids then [RenamedEdge(e, suffix)] else []
  }

  function Remapped(d: Dag, suffix: string): Dag
  {
    Dag(RenamedNodes(d.nodes, suffix), RenamedEdges(d.edges, d.Ids(), suffix))
  }

  method RemapDag(d: Dag, suffix: string) returns (out: Dag, idMap: map<Id, Id>)
    ensures out == Remapped(d, suffix)
    ensures idMap.Keys == d.Ids() && forall x :: x in idMap ==> idMap[x] == x + "_" + suffix
    ensures |out.nodes| == |d.nodes|
    ensures forall i :: 0 <= i < |d.nodes| ==>
      var n := d.nodes[i];
      out.nodes[i] == Node(n.id + "_" + suffix, n.typ, n.subtype, n.params, n.position)
    ensures d.Valid() ==> |out.edges| == |d.edges| && forall i :: 0 <= i < |d.edges| ==>
      var e := d.edges[i];
      out.edges[i] == Edge(e.id + "_" + suffix, e.source + "_" + suffix, e.sourceHandle,
                           e.target + "_" + suffix, e.targetHandle)
  {
    var nodes: seq<Node>, edges: seq<Edge>;
    nodes, idMap := RemapNodes(d, suffix);
    edges := RemapEdges(d, suffix, idMap);
    out := Dag(nodes, edges);
    if d.Valid() {
      EdgesKept(d.edges, d.Ids(), suffix);
    }
  }

  method RemapNodes(d: Dag, suffix: string) returns (nodes: seq<Node>, idMap: map<Id, Id>)
    ensures nodes == RenamedNodes(d.nodes, suffix)
    ensures idMap == map x | x in d.Ids() :: Suffixed(x, suffix)
  {
    idMap := map[];
    nodes := [];
    for i := 0 to |d.nodes|
      invariant nodes == RenamedNodes(d.nodes[..i], suffix)
      invariant forall x :: x in idMap <==> exists k :: 0 <= k < i && d.nodes[k].id == x
      invariant forall x :: x in idMap ==> idMap[x] == Suffixed(x, suffix)
    {
      var n := d.nodes[i];
      var newId := n.id + "_" + suffix;
      idMap := idMap[n.id := newId];
      nodes := nodes + [Node(newId, n.typ, n.subtype, n.params, n.position)];
    }
    assert idMap.Keys == d.Ids() by {
      forall x | x in d.Ids() ensures x in idMap {
        var m :| m in d.nodes && m.id == x;
        var k :| 0 <= k < |d.nodes| && d.nodes[k] == m;
      }
    }
    assert d.nodes[..|d.nodes|] == d.nodes;
  }

  method RemapEdges(d: Dag, suffix: string, idMap: map<Id, Id>) returns (edges: seq<Edge>)
    requires idMap == map x | x in d.Ids() :: Suffixed(x, suffix)
    ensures edges == RenamedEdges(d.edges, d.Ids(), suffix)
  {
    edges := [];
    for i := 0 to |d.edges|
      invariant edges == RenamedEdges(d.edges[..i], d.Ids(), suffix)
    {
      var e := d.edges[i];
      assert d.edges[..i + 1][..i] == d.edges[..i];
      if e.source in idMap && e.target in idMap {
        edges := edges + [Edge(e.id + "_" + suffix, idMap[e.source], e.sourceHandle, idMap[e.target], e.targetHandle)];
      }
    }
    assert d.edges[..|d.edges|] == d.edges;
  }

  // --- the clone is isomorphic --------------------------------------------------------------

  /** No edge of a valid graph is dropped. */
  lemma {:induction false} EdgesKept(edges: seq<Edge>, ids: set<Id>, suffix: string)
    requires forall e :: e in edges ==> e.source in ids && e.target in ids
    ensures |RenamedEdges(edges, ids, suffix)| == |edges|
    ensures forall i :: 0 <= i < |edges| ==> RenamedEdges(edges, ids, suffix)[i] == RenamedEdge(edges[i], suffix)
  {
    if edges != [] {
      assert edges[|edges| - 1] in edges;
      EdgesKept(edges[..|edges| - 1], ids, suffix);
    }
  }

  lemma CloneIds(d: Dag, suffix: string, x: Id)
    ensures Suffixed(x, suffix) in Remapped(d, suffix).Ids() <==> x in d.Ids()
  {
    var c := Remapped(d, suffix);
    if x in d.Ids() {
      var n :| n in d.nodes && n.id == x;
      var i :| 0 <= i < |d.nodes| && d.nodes[i] == n;
      assert c.nodes[i] in c.nodes;
    }
    if Suffixed(x, suffix) in c.Ids() {
      var m :| m in c.nodes && m.id == Suffixed(x, suffix);
      var i :| 0 <= i < |c.nodes| && c.nodes[i] == m;
      SuffixInjective(d.nodes[i].id, x, suffix);
      assert d.nodes[i] in d.nodes;
    }
  }

  /** An edge of the clone comes from an edge of the graph. */
  lemma EdgeBack(d: Dag, suffix: string, a: Id, b: Id) returns (x: Id, y: Id)
    requires d.Valid() && Remapped(d, suffix).HasEdge(a, b)
    ensures d.HasEdge(x, y) && a == Suffixed(x, suffix) && b == Suffixed(y, suffix)
  {
    var c := Remapped(d, suffix);
    EdgesKept(d.edges, d.Ids(), suffix);
    var e :| e in c.edges && e.source == a && e.target == b;
    var i :| 0 <= i < |c.edges| && c.edges[i] == e;
    assert d.edges[i] in d.edges;
    x, y := d.edges[i].source, d.edges[i].target;
  }

  /** The clone has exactly the renamed edges. */
  lemma CloneEdge(d: Dag, suffix: string, a: Id, b: Id)
    requires d.Valid()
    ensures |Remapped(d, suffix).edges| == |d.edges|
    ensures Remapped(d, suffix).HasEdge(Suffixed(a, suffix), Suffixed(b, suffix)) <==> d.HasEdge(a, b)
  {
    var c := Remapped(d, suffix);
    EdgesKept(d.edges, d.Ids(), suffix);
    if d.HasEdge(a, b) {
      var e :| e in d.edges && e.source == a && e.target == b;
      var i :| 0 <= i < |d.edges| && d.edges[i] == e;
      assert c.edges[i] in c.edges;
    }
    if c.HasEdge(Suffixed(a, suffix), Suffixed(b, suffix)) {
      var x, y := EdgeBack(d, suffix, Suffixed(a, suffix), Suffixed(b, suffix));
      SuffixInjective(a, x, suffix);
      SuffixInjective(b, y, suffix);
    }
  }

  lemma CloneValid(d: Dag, suffix: string)
    requires d.Valid()
    ensures Remapped(d, suffix).Valid()
  {
    var c := Remapped(d, suffix);
    EdgesKept(d.edges, d.Ids(), suffix);
    forall i, j | 0 <= i < j < |c.nodes| ensures c.nodes[i].id != c.nodes[j].id {
      if c.nodes[i].id == c.nodes[j].id {
        SuffixInjective(d.nodes[i].id, d.nodes[j].id, suffix);
      }
    }
    forall e {:trigger e in c.edges} | e in c.edges
      ensures e.source != "" && e.target != "" && e.source != e.target && e.source in c.Ids() && e.target in c.Ids()
    {
      var i :| 0 <= i < |c.edges| && c.edges[i] == e;
      assert d.edges[i] in d.edges;
      CloneIds(d, suffix, d.edges[i].source);
      CloneIds(d, suffix, d.edges[i].target);
      if e.source == e.target {
        SuffixInjective(d.edges[i].source, d.edges[i].target, suffix);
      }
    }
  }

  function SuffixedAll(s: seq<Id>, suffix: string): seq<Id>
  {
    seq(|s|, i requires 0 <= i < |s| => Suffixed(s[i], suffix))
  }

  lemma SuffixedAppend(s: seq<Id>, t: seq<Id>, suffix: string)
    ensures SuffixedAll(s + t, suffix) == SuffixedAll(s, suffix) + SuffixedAll(t, suffix)
  {
  }

  lemma SuffixedIn(s: seq<Id>, x: Id, suffix: string)
    ensures Suffixed(x, suffix) in SuffixedAll(s, suffix) <==> x in s
  {
    if x in s {
      var i :| 0 <= i < |s| && s[i] == x;
      assert SuffixedAll(s, suffix)[i] == Suffixed(x, suffix);
    }
    if Suffixed(x, suffix) in SuffixedAll(s, suffix) {
      var i :| 0 <= i < |s| && SuffixedAll(s, suffix)[i] == Suffixed(x, suffix);
      SuffixInjective(s[i], x, suffix);
    }
  }

  /** Successor lists commute with the renaming, order and repetitions included. */
  lemma {:induction false} CloneSuccessors(edges: seq<Edge>, ids: set<Id>, x: Id, suffix: string)
    requires forall e :: e in edges ==> e.source in ids && e.target in ids
    ensures Successors(RenamedEdges(edges, ids, suffix), Suffixed(x, suffix)) ==
            SuffixedAll(Successors(edges, x), suffix)
  {
    if edges != [] {
      var q, e := edges[..|edges| - 1], edges[|edges| - 1];
      assert e in edges;
      CloneSuccessors(q, ids, x, suffix);
      var r := RenamedEdges(q, ids, suffix);
      assert (r + [RenamedEdge(e, suffix)])[..|r|] == r;
      if Suffixed(e.source, suffix) == Suffixed(x, suffix) {
        SuffixInjective(e.source, x, suffix);
      }
      SuffixedAppend(Successors(q, x), [e.target], suffix);
      assert SuffixedAll([e.target], suffix) == [Suffixed(e.target, suffix)];
    }
  }

  lemma {:induction false} ClonePredecessors(edges: seq<Edge>, ids: set<Id>, x: Id, suffix: string)
    requires forall e :: e in edges ==> e.source in ids && e.target in ids
    ensures Predecessors(RenamedEdges(edges, ids, suffix), Suffixed(x, suffix)) ==
            SuffixedAll(Predecessors(edges, x), suffix)
  {
    if edges != [] {
      var q, e := edges[..|edges| - 1], edges[|edges| - 1];
      assert e in edges;
      ClonePredecessors(q, ids, x, suffix);
      var r := RenamedEdges(q, ids, suffix);
      assert (r + [RenamedEdge(e, suffix)])[..|r|] == r;
      if Suffixed(e.target, suffix) == Suffixed(x, suffix) {
        SuffixInjective(e.target, x, suffix);
      }
      SuffixedAppend(Predecessors(q, x), [e.source], suffix);
      assert SuffixedAll([e.source], suffix) == [Suffixed(e.source, suffix)];
    }
  }

  /** Two sets, one the image of the other under the renaming. */
  ghost predicate Image(a: set<Id>, b: set<Id>, suffix: string)
  {
    forall x :: Suffixed(x, suffix) in b <==> x in a
  }

  lemma {:induction false} CloneUnseen(children: seq<Id>, a: set<Id>, b: set<Id>, suffix: string)
    requires Image(a, b, suffix)
    ensures Unseen(SuffixedAll(children, suffix), b) == SuffixedAll(Unseen(children, a), suffix)
  {
    if children != [] {
      var q, c := children[..|children| - 1], children[|children| - 1];
      CloneUnseen(q, a, b, suffix);
      assert SuffixedAll(children, suffix)[..|children| - 1] == SuffixedAll(q, suffix);
      SuffixedIn(Unseen(q, a), c, suffix);
      SuffixedAppend(Unseen(q, a), [c], suffix);
      assert SuffixedAll([c], suffix) == [Suffixed(c, suffix)];
    }
  }

  lemma ImageGrows(a: set<Id>, b: set<Id>, s: seq<Id>, suffix: string)
    requires Image(a, b, suffix)
    ensures Image(a + Elems(s), b + Elems(SuffixedAll(s, suffix)), suffix)
  {
    forall x ensures Suffixed(x, suffix) in b + Elems(SuffixedAll(s, suffix)) <==> x in a + Elems(s) {
      SuffixedIn(s, x, suffix);
    }
  }

  lemma CloneAdded(d: Dag, suffix: string, h: Id, a: set<Id>, b: set<Id>)
    requires d.Valid() && Image(a, b, suffix)
    ensures Unseen(Successors(Remapped(d, suffix).edges, Suffixed(h, suffix)), b) ==
            SuffixedAll(Unseen(Successors(d.edges, h), a), suffix)
  {
    CloneSuccessors(d.edges, d.Ids(), h, suffix);
    CloneUnseen(Successors(d.edges, h), a, b, suffix);
  }

  lemma {:induction false} CloneBfs(d: Dag, suffix: string, queue: seq<Id>, a: set<Id>, b: set<Id>, out: seq<Id>)
    requires d.Valid() && Remapped(d, suffix).Valid() && Image(a, b, suffix)
    ensures Bfs(Remapped(d, suffix), SuffixedAll(queue, suffix), b, SuffixedAll(out, suffix)) ==
            SuffixedAll(Bfs(d, queue, a, out), suffix)
    decreases |d.Ids() - a|, |queue|
  {
    if queue != [] {
      var added := Unseen(Successors(d.edges, queue[0]), a);
      UnseenShrinks(d, queue[0], a);
      ImageGrows(a, b, added, suffix);
      CloneBfs(d, suffix, queue[1..] + added, a + Elems(added), b + Elems(SuffixedAll(added, suffix)), out + added);
      CloneBfsStep(d, suffix, queue, a, b, out);
    }
  }

  /** One step of the search on the clone. */
  lemma CloneBfsStep(d: Dag, suffix: string, queue: seq<Id>, a: set<Id>, b: set<Id>, out: seq<Id>)
    requires d.Valid() && Remapped(d, suffix).Valid() && Image(a, b, suffix) && queue != []
    ensures
      var added := Unseen(Successors(d.edges, queue[0]), a);
      Bfs(Remapped(d, suffix), SuffixedAll(queue, suffix), b, SuffixedAll(out, suffix)) ==
      Bfs(Remapped(d, suffix), SuffixedAll(queue[1..] + added, suffix), b + Elems(SuffixedAll(added, suffix)),
          SuffixedAll(out + added, suffix))
  {
    var added := Unseen(Successors(d.edges, queue[0]), a);
    var q := SuffixedAll(queue, suffix);
    CloneAdded(d, suffix, queue[0], a, b);
    SuffixedAppend(queue[1..], added, suffix);
    SuffixedAppend(out, added, suffix);
    assert q != [] && q[0] == Suffixed(queue[0], suffix) && q[1..] == SuffixedAll(queue[1..], suffix);
  }

  /** The descendants of a cloned node are the clones of its descendants, in the same order. */
  lemma CloneDescendants(d: Dag, suffix: string, x: Id)
    requires d.Valid() && Remapped(d, suffix).Valid()
    ensures Descendants(Remapped(d, suffix), Suffixed(x, suffix)) == SuffixedAll(Descendants(d, x), suffix)
  {
    forall y ensures Suffixed(y, suffix) in {Suffixed(x, suffix)} <==> y in {x} {
      if Suffixed(y, suffix) == Suffixed(x, suffix) {
        SuffixInjective(y, x, suffix);
      }
    }
    CloneBfs(d, suffix, [x], {x}, {Suffixed(x, suffix)}, []);
    assert SuffixedAll([x], suffix) == [Suffixed(x, suffix)];
    assert SuffixedAll([], suffix) == [];
  }

  /** Paths correspond, so reachability does. */
  lemma CloneReaches(d: Dag, suffix: string, a: Id, b: Id)
    requires d.Valid()
    ensures Reaches(Remapped(d, suffix), Suffixed(a, suffix), Suffixed(b, suffix)) <==> Reaches(d, a, b)
  {
    var c := Remapped(d, suffix);
    if Reaches(d, a, b) {
      var p :| PathFromTo(d, p, a, b);
      ClonePath(d, suffix, p);
      assert PathFromTo(c, SuffixedAll(p, suffix), Suffixed(a, suffix), Suffixed(b, suffix));
    }
    if Reaches(c, Suffixed(a, suffix), Suffixed(b, suffix)) {
      var q :| PathFromTo(c, q, Suffixed(a, suffix), Suffixed(b, suffix));
      var p := PathBack(d, suffix, q);
      SuffixInjective(p[0], a, suffix);
      SuffixInjective(p[|p| - 1], b, suffix);
      assert PathFromTo(d, p, a, b);
    }
  }

  lemma ClonePath(d: Dag, suffix: string, p: seq<Id>)
    requires d.Valid() && IsPath(d, p)
    ensures IsPath(Remapped(d, suffix), SuffixedAll(p, suffix))
  {
    var q := SuffixedAll(p, suffix);
    forall i | 0 <= i < |q| - 1 ensures Link(Remapped(d, suffix), q, i) {
      assert Link(d, p, i);
      CloneEdge(d, suffix, p[i], p[i + 1]);
    }
  }

  /** Every path of the clone is the renaming of a path. */
  lemma {:induction false} PathBack(d: Dag, suffix: string, q: seq<Id>) returns (p: seq<Id>)
    requires d.Valid() && IsPath(Remapped(d, suffix), q) && |q| >= 2
    ensures IsPath(d, p) && SuffixedAll(p, suffix) == q
    decreases |q|
  {
    var c := Remapped(d, suffix);
    assert Link(c, q, |q| - 2);
    var x, y := EdgeBack(d, suffix, q[|q| - 2], q[|q| - 1]);
    if |q| == 2 {
      p := [x, y];
      PathExtend(d, [x], y);
      assert [x] + [y] == p;
    } else {
      PathPrefix(c, q);
      var s := PathBack(d, suffix, q[..|q| - 1]);
      LastSuffixed(s, suffix, x);
      PathExtend(d, s, y);
      SuffixedAppend(s, [y], suffix);
      p := s + [y];
      assert SuffixedAll([y], suffix) == [q[|q| - 1]];
    }
  }

  lemma PathPrefix(d: Dag, q: seq<Id>)
    requires IsPath(d, q) && |q| >= 2
    ensures IsPath(d, q[..|q| - 1])
  {
    var r := q[..|q| - 1];
    forall i | 0 <= i < |r| - 1 ensures Link(d, r, i) {
      assert Link(d, q, i);
    }
  }

  lemma LastSuffixed(s: seq<Id>, suffix: string, x: Id)
    requires |s| > 0 && SuffixedAll(s, suffix)[|s| - 1] == Suffixed(x, suffix)
    ensures s[|s| - 1] == x
  {
    SuffixInjective(s[|s| - 1], x, suffix);
  }

  /** The clone of a valid graph has a cycle exactly when the graph has one. */
  lemma CloneAcyclic(d: Dag, suffix: string)
    requires d.Valid()
    ensures Acyclic(Remapped(d, suffix)) <==> Acyclic(d)
  {
    var c := Remapped(d, suffix);
    forall n | Reaches(d, n, n) ensures Reaches(c, Suffixed(n, suffix), Suffixed(n, suffix)) {
      CloneReaches(d, suffix, n, n);
    }
    forall m | Reaches(c, m, m) ensures exists n :: Reaches(d, n, n) {
      var x := ReachesFirst(c, m, m);
      var n, y := EdgeBack(d, suffix, m, x);
      CloneReaches(d, suffix, n, n);
    }
  }
}
