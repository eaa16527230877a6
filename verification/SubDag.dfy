/**
 Running up to a target node: the sub-graph of the nodes that lead to it, and the agreement of its
 records with those of a run of the whole graph.
 */
module SubDag {
  import opened Wrappers
  import opened Ordering
  import opened Graph
  import opened TopoSort
  import opened Closure
  import opened Engine
  import opened EngineInvariant
  import opened Confluence
  import opened EngineSafety

  // --- the sub-graph ----------------------------------------------------------------------

  function KeptNodes(nodes: seq<Node>, inPath: set<Id>): seq<Node>
  {
    if nodes == [] then []
    else
      var n := nodes[|nodes| - 1];
      KeptNodes(nodes[..|nodes| - 1], inPath) + if n.id in inPath then [n] else []
  }

  function KeptEdges(edges: seq<Edge>, inPath: set<Id>): seq<Edge>
  {
    if edges == [] then []
    else
      var e := edges[|edges| - 1];
      KeptEdges(edges[..|edges| - 1], inPath) + if e.source in inPath && e.target in inPath then [e] else []
  }

  function Restricted(d: Dag, inPath: set<Id>): Dag
  {
    Dag(KeptNodes(d.nodes, inPath), KeptEdges(d.edges, inPath))
  }

  method BuildSubDag(d: Dag, inPath: set<Id>) returns (sub: Dag)
    ensures sub == Restricted(d, inPath)
  {
    var nodes: seq<Node>, edges: seq<Edge> := [], [];
    for i := 0 to |d.nodes|
      invariant nodes == KeptNodes(d.nodes[..i], inPath)
    {
      assert d.nodes[..i + 1][..i] == d.nodes[..i];
      if d.nodes[i].id in inPath {
        nodes := nodes + [d.nodes[i]];
      }
    }
    for i := 0 to |d.edges|
      invariant edges == KeptEdges(d.edges[..i], inPath)
    {
      assert d.edges[..i + 1][..i] == d.edges[..i];
      if d.edges[i].source in inPath && d.edges[i].target in inPath {
        edges := edges + [d.edges[i]];
      }
    }
    assert d.nodes[..|d.nodes|] == d.nodes && d.edges[..|d.edges|] == d.edges;
    sub := Dag(nodes, edges);
  }

  lemma {:induction false} KeptNodesExact(nodes: seq<Node>, inPath: set<Id>)
    requires forall i, j :: 0 <= i < j < |nodes| ==> nodes[i].id != nodes[j].id
    ensures forall n :: n in KeptNodes(nodes, inPath) <==> n in nodes && n.id in inPath
    ensures forall i, j :: 0 <= i < j < |KeptNodes(nodes, inPath)| ==>
      KeptNodes(nodes, inPath)[i].id != KeptNodes(nodes, inPath)[j].id
  {
    if nodes != [] {
      var q, l := nodes[..|nodes| - 1], nodes[|nodes| - 1];
      KeptNodesExact(q, inPath);
      assert nodes == q + [l];
      var kept := KeptNodes(q, inPath);
      forall i | 0 <= i < |kept| ensures kept[i].id != l.id {
        assert kept[i] in q;
      }
    }
  }

  lemma {:induction false} KeptIds(nodes: seq<Node>, inPath: set<Id>)
    ensures forall n :: n in KeptNodes(nodes, inPath) <==> n in nodes && n.id in inPath
  {
    if nodes != [] {
      KeptIds(nodes[..|nodes| - 1], inPath);
      assert forall i :: 0 <= i < |nodes| - 1 ==> nodes[..|nodes| - 1][i] == nodes[i];
    }
  }

  lemma {:induction false} KeptEdgesExact(edges: seq<Edge>, inPath: set<Id>)
    ensures forall e :: e in KeptEdges(edges, inPath) <==> e in edges && e.source in inPath && e.target in inPath
  {
    if edges != [] {
      KeptEdgesExact(edges[..|edges| - 1], inPath);
      assert edges == edges[..|edges| - 1] + [edges[|edges| - 1]];
    }
  }

  /** A set of nodes with all their predecessors. */
  ghost predicate PathSet(d: Dag, inPath: set<Id>)
  {
    && inPath != {} && inPath <= d.Ids()
    && forall a, b {:trigger d.HasEdge(a, b)} :: d.HasEdge(a, b) && b in inPath ==> a in inPath
  }

  /** The nodes leading to a target form such a set. */
  lemma PathSetOfTarget(d: Dag, target: Id, inPath: set<Id>)
    requires d.Valid() && target in d.Ids() && forall x :: x in inPath <==> LeadsTo(d, x, target)
    ensures PathSet(d, inPath)
  {
    assert target in inPath;
    forall x | x in inPath ensures x in d.Ids() {
      if x != target {
        ReachesNodes(d, x, target);
      }
    }
    forall a, b {:trigger d.HasEdge(a, b)} | d.HasEdge(a, b) && b in inPath ensures a in inPath {
      EdgeReaches(d, a, b);
      if b != target {
        ReachesTransitive(d, a, b, target);
      }
    }
  }

  /** The nodes that lead to a target, which may lie on an invalid graph. */
  ghost function PathTo(d: Dag, target: Id): set<Id>
  {
    set x | x in {target} + (set e | e in d.edges :: e.source) && LeadsTo(d, x, target)
  }

  lemma PathToExact(d: Dag, target: Id, inPath: set<Id>)
    requires forall x :: x in inPath <==> LeadsTo(d, x, target)
    ensures inPath == PathTo(d, target)
  {
    forall x | LeadsTo(d, x, target) ensures x in PathTo(d, target) {
      if x != target {
        var y := ReachesFirst(d, x, target);
        var e :| e in d.edges && e.source == x && e.target == y;
      }
    }
  }

  lemma SubDagValid(d: Dag, inPath: set<Id>)
    requires d.Valid() && PathSet(d, inPath)
    ensures Restricted(d, inPath).Valid() && Restricted(d, inPath).Ids() == inPath
    ensures forall a, b :: Restricted(d, inPath).HasEdge(a, b) <==> d.HasEdge(a, b) && b in inPath
  {
    var sub := Restricted(d, inPath);
    KeptNodesExact(d.nodes, inPath);
    KeptEdgesExact(d.edges, inPath);
    forall x ensures x in sub.Ids() <==> x in inPath {
      if x in inPath {
        var n :| n in d.nodes && n.id == x;
        assert n in sub.nodes;
      }
    }
    var x :| x in inPath;
    assert x in sub.Ids();
    forall i | 0 <= i < |sub.nodes| ensures sub.nodes[i].id != "" && sub.nodes[i].typ != "" {
      assert sub.nodes[i] in d.nodes;
    }
    forall a, b ensures sub.HasEdge(a, b) <==> d.HasEdge(a, b) && b in inPath {
      if d.HasEdge(a, b) && b in inPath {
        var e :| e in d.edges && e.source == a && e.target == b;
        assert e in sub.edges;
      }
      if sub.HasEdge(a, b) {
        var e :| e in sub.edges && e.source == a && e.target == b;
        assert e in d.edges;
      }
    }
  }

  /** Inside the path set nothing about a node's surroundings changes. */
  lemma {:induction false} SamePredecessors(edges: seq<Edge>, inPath: set<Id>, n: Id)
    requires n in inPath && forall e :: e in edges && e.target in inPath ==> e.source in inPath
    ensures Predecessors(KeptEdges(edges, inPath), n) == Predecessors(edges, n)
  {
    if edges != [] {
      var q, e := edges[..|edges| - 1], edges[|edges| - 1];
      assert edges == q + [e];
      SamePredecessors(q, inPath, n);
      var k := KeptEdges(q, inPath);
      if e.source in inPath && e.target in inPath {
        assert (k + [e])[..|k|] == k;
      } else {
        assert e.target != n;
        assert KeptEdges(edges, inPath) == k;
      }
    }
  }

  lemma SameDefinition(d: Dag, inPath: set<Id>, n: Id)
    requires d.Valid() && PathSet(d, inPath) && n in inPath
    ensures Definition(Restricted(d, inPath), n) == Definition(d, n)
  {
    KeptNodesExact(d.nodes, inPath);
    var m :| m in d.nodes && m.id == n;
    NodeByIdUnique(d.nodes, m);
    NodeByIdUnique(KeptNodes(d.nodes, inPath), m);
  }

  lemma SameLocal(c: Config, inPath: set<Id>, r1: map<Id, NodeResult>, r2: map<Id, NodeResult>, n: Id)
    requires c.dag.Valid() && PathSet(c.dag, inPath) && n in inPath
    requires forall p :: c.dag.HasEdge(p, n) ==> p in r1 && p in r2 && r1[p] == r2[p]
    ensures Local(c, r1, n) == Local(c.(dag := Restricted(c.dag, inPath)), r2, n)
  {
    SameDefinition(c.dag, inPath, n);
    forall e | e in c.dag.edges && e.target in inPath ensures e.source in inPath {
      assert c.dag.HasEdge(e.source, e.target);
    }
    SamePredecessors(c.dag.edges, inPath, n);
    PredecessorsExact(c.dag, n);
    LocalAgrees(c, c.(dag := Restricted(c.dag, inPath)), r1, r2, n);
  }

  /** Ancestors within the path set are the same in both graphs. */
  lemma SameAncestors(d: Dag, inPath: set<Id>, a: Id, n: Id)
    requires d.Valid() && PathSet(d, inPath) && n in inPath
    ensures Reaches(Restricted(d, inPath), a, n) <==> Reaches(d, a, n)
  {
    var sub := Restricted(d, inPath);
    SubDagValid(d, inPath);
    if Reaches(d, a, n) {
      var p :| PathFromTo(d, p, a, n);
      var k := |p| - 1;
      while k > 0
        invariant 0 <= k < |p|
        invariant p[k] in inPath
        invariant forall i :: k <= i < |p| - 1 ==> Link(sub, p, i)
      {
        assert Link(d, p, k - 1);
        assert Link(sub, p, k - 1);
        k := k - 1;
      }
      assert PathFromTo(sub, p, a, n);
    }
    if Reaches(sub, a, n) {
      var p :| PathFromTo(sub, p, a, n);
      forall i | 0 <= i < |p| - 1 ensures Link(d, p, i) {
        assert Link(sub, p, i);
      }
      assert PathFromTo(d, p, a, n);
    }
  }

  // --- agreement --------------------------------------------------------------------------

  /** A topological prefix of the sub-graph is one of the whole graph. */
  lemma PrefixOfWhole(d: Dag, inPath: set<Id>, o: seq<Id>)
    requires d.Valid() && PathSet(d, inPath) && TopoPrefix(Restricted(d, inPath), o)
    ensures TopoPrefix(d, o)
  {
    SubDagValid(d, inPath);
    forall k, a | 0 <= k < |o| && d.HasEdge(a, o[k]) ensures a in o[..k] {
      assert o[k] in o;
      assert Restricted(d, inPath).HasEdge(a, o[k]);
    }
  }

  /** Along a Kahn order of the whole graph, the two runs record the same inside the path set. */
  lemma {:induction false} EmittedSame(c: Config, s: State, inPath: set<Id>, t: State, o: seq<Id>, k: nat)
    requires Ended(c, s) && !s.cancelled && PathSet(c.dag, inPath) && TopoPrefix(c.dag, o)
    requires Ended(c.(dag := Restricted(c.dag, inPath)), t) && !t.cancelled
    requires k < |o| && o[k] in inPath
    ensures o[k] in s.core.results && o[k] in t.core.results && s.core.results[o[k]] == t.core.results[o[k]]
    decreases k
  {
    var c' := c.(dag := Restricted(c.dag, inPath));
    EmittedRecorded(c, s, o, k);
    SubDagValid(c.dag, inPath);
    forall p | c.dag.HasEdge(p, o[k])
      ensures p in s.core.results && p in t.core.results && s.core.results[p] == t.core.results[p]
    {
      var j :| 0 <= j < k && o[j] == p;
      EmittedSame(c, s, inPath, t, o, j);
    }
    NothingForgotten(c', t, o[k]);
    LocalEquation(c, s, o[k]);
    LocalEquation(c', t, o[k]);
    SameLocal(c, inPath, s.core.results, t.core.results, o[k]);
  }

  /** A failure of the sub-graph run lies in the Kahn order of the whole graph. */
  lemma SubFailureEmitted(c: Config, inPath: set<Id>, t: State, o: seq<Id>, f: Id)
    requires c.dag.Valid() && PathSet(c.dag, inPath) && KahnOrder(c.dag, o)
    requires Ended(c.(dag := Restricted(c.dag, inPath)), t) && FailedAt(t.core.results, f)
    ensures f in o && f in inPath
  {
    assert WellFormed(f, t.core.results[f]);
    assert f in Reported(t.core);
    SubDagValid(c.dag, inPath);
    PrefixOfWhole(c.dag, inPath, Nodes(t.workers));
    PrefixInStuck(c.dag, Nodes(t.workers), o);
  }

  lemma BelowSame(c: Config, s: State, inPath: set<Id>, t: State, o: seq<Id>, n: Id)
    requires Ended(c, s) && !s.cancelled && PathSet(c.dag, inPath) && KahnOrder(c.dag, o)
    requires Ended(c.(dag := Restricted(c.dag, inPath)), t) && !t.cancelled && n in inPath
    ensures BelowFailure(c.dag, s.core.results, n) <==>
            BelowFailure(Restricted(c.dag, inPath), t.core.results, n)
  {
    if BelowFailure(c.dag, s.core.results, n) {
      var f :| FailedAt(s.core.results, f) && Reaches(c.dag, f, n);
      FailureEmitted(c, s, o, f);
      ClosedUnderAncestors(c.dag, inPath, f, n);
      var k :| 0 <= k < |o| && o[k] == f;
      EmittedSame(c, s, inPath, t, o, k);
      SameAncestors(c.dag, inPath, f, n);
    }
    if BelowFailure(Restricted(c.dag, inPath), t.core.results, n) {
      var f :| FailedAt(t.core.results, f) && Reaches(Restricted(c.dag, inPath), f, n);
      SubFailureEmitted(c, inPath, t, o, f);
      var k :| 0 <= k < |o| && o[k] == f;
      EmittedSame(c, s, inPath, t, o, k);
      SameAncestors(c.dag, inPath, f, n);
    }
  }

  /** Inside the path set the two finished runs record the same nodes with the same results. */
  lemma RecordsSame(c: Config, s: State, inPath: set<Id>, t: State, n: Id)
    requires Ended(c, s) && !s.cancelled && PathSet(c.dag, inPath) && n in inPath
    requires Ended(c.(dag := Restricted(c.dag, inPath)), t) && !t.cancelled
    ensures n in s.core.results <==> n in t.core.results
    ensures n in s.core.results ==> s.core.results[n] == t.core.results[n]
  {
    var c' := c.(dag := Restricted(c.dag, inPath));
    var o := KahnOrderFrom(c.dag, []);
    if n in o {
      var k :| 0 <= k < |o| && o[k] == n;
      EmittedSame(c, s, inPath, t, o, k);
    } else {
      BelowSame(c, s, inPath, t, o, n);
      RecordedExactly(c, s, o, n);
      SubRecordBelow(c, inPath, t, o, n);
      if n in s.core.results {
        HitRecord(c, s, n);
        HitRecord(c', t, n);
      }
    }
  }

  /** In the sub-graph run a record outside the whole graph's Kahn order was hit by a cascade. */
  lemma SubRecordBelow(c: Config, inPath: set<Id>, t: State, o: seq<Id>, n: Id)
    requires c.dag.Valid() && PathSet(c.dag, inPath) && KahnOrder(c.dag, o) && n !in o
    requires Ended(c.(dag := Restricted(c.dag, inPath)), t)
    ensures n in t.core.results <==> BelowFailure(Restricted(c.dag, inPath), t.core.results, n)
  {
    HitIffBelowFailure(Restricted(c.dag, inPath), t.core, t.pc, n);
    PrefixOfWhole(c.dag, inPath, Nodes(t.workers));
    PrefixInStuck(c.dag, Nodes(t.workers), o);
    assert n in t.core.results && !Hit(t.core, n) ==> n in Reported(t.core);
  }

  // --- ExecuteToNode ----------------------------------------------------------------------

  /** The records handed back: those of the sub-graph run, and a skip for every other node. */
  function WithOutside(d: Dag, inPath: set<Id>, results: map<Id, NodeResult>): map<Id, NodeResult>
  {
    results + map n | n in d.Ids() && n !in inPath && n !in results :: SkippedFor(n, NotInPath)
  }

  method MarkOutside(d: Dag, inPath: set<Id>, results: map<Id, NodeResult>) returns (r: map<Id, NodeResult>)
    ensures r == WithOutside(d, inPath, results)
    ensures forall n :: n in results ==> n in r && r[n] == results[n]
    ensures forall n :: n in r && n !in results ==>
      n in d.Ids() && n !in inPath && r[n] == NodeResult(n, Skipped, NotInPath, None, "")
    ensures forall n :: n in d.Ids() && n !in inPath ==> n in r
  {
    r := results;
    for i := 0 to |d.nodes|
      invariant forall n :: n in results ==> n in r && r[n] == results[n]
      invariant forall n :: n in r && n !in results ==> n in d.Ids() && n !in inPath && r[n] == SkippedFor(n, NotInPath)
      invariant forall k :: 0 <= k < i && d.nodes[k].id !in inPath ==> d.nodes[k].id in r
    {
      var n := d.nodes[i].id;
      assert d.nodes[i] in d.nodes;
      if n !in inPath && n !in r {
        r := r[n := SkippedFor(n, NotInPath)];
      }
    }
    forall n | n in d.Ids() && n !in inPath ensures n in r {
      var m :| m in d.nodes && m.id == n;
      var k :| 0 <= k < |d.nodes| && d.nodes[k] == m;
    }
  }

  /** Running up to a target, possibly with another concurrency limit. */
  function UpTo(c: Config, inPath: set<Id>, limit: int): Config
  {
    Config(Restricted(c.dag, inPath), limit, c.body)
  }

  /**
   Sub-graph agreement: running only up to a target gives the target and every ancestor the record a
   full run gives it, and every other node the not-in-path skip.  Neither run may be cancelled; the
   graph may have cycles, the interleavings and the concurrency limits may differ.
   */
  lemma ExecuteToNodeAgrees(c: Config, acts: seq<Action>, limit: int, subActs: seq<Action>, target: Id,
                            inPath: set<Id>, n: Id)
    requires c.dag.Valid() && target in c.dag.Ids()
    requires forall x :: x in inPath <==> LeadsTo(c.dag, x, target)
    requires FinishedRun(c, acts) && !After(c, false, acts).cancelled
    requires Restricted(c.dag, inPath).Valid()  // always so: SubDagValid
    requires FinishedRun(UpTo(c, inPath, limit), subActs) && !After(UpTo(c, inPath, limit), false, subActs).cancelled
    requires n in c.dag.Ids()
    ensures
      var full := After(c, false, acts).core.results;
      var upTo := WithOutside(c.dag, inPath, After(UpTo(c, inPath, limit), false, subActs).core.results);
      if LeadsTo(c.dag, n, target) then
        (n in full <==> n in upTo) && (n in full ==> upTo[n] == full[n])
      else n in upTo && upTo[n] == NodeResult(n, Skipped, NotInPath, None, "")
  {
    PathSetOfTarget(c.dag, target, inPath);
    if n in inPath {
      PathRecordsSame(c, acts, limit, subActs, inPath, n);
    } else {
      SubDagValid(c.dag, inPath);
      RunFinished(UpTo(c, inPath, limit), subActs);
      SubRecordsInside(UpTo(c, inPath, limit), After(UpTo(c, inPath, limit), false, subActs), n);
    }
  }

  /** The limit of the sub-graph run does not matter: a run with the full run's limit records the same. */
  lemma PathRecordsSame(c: Config, acts: seq<Action>, limit: int, subActs: seq<Action>, inPath: set<Id>, n: Id)
    requires c.dag.Valid() && PathSet(c.dag, inPath) && n in inPath && Restricted(c.dag, inPath).Valid()
    requires FinishedRun(c, acts) && !After(c, false, acts).cancelled
    requires FinishedRun(UpTo(c, inPath, limit), subActs) && !After(UpTo(c, inPath, limit), false, subActs).cancelled
    ensures
      var full := After(c, false, acts).core.results;
      var upTo := After(UpTo(c, inPath, limit), false, subActs).core.results;
      (n in full <==> n in upTo) && (n in full ==> upTo[n] == full[n])
  {
    var c' := UpTo(c, inPath, c.maxConcurrency);
    assert c' == c.(dag := Restricted(c.dag, inPath));
    var same := CarriedOn(c', []);
    assert [] + same == same;
    RunsAgree(c', same, UpTo(c, inPath, limit), subActs);
    RunFinished(c, acts);
    RunFinished(c', same);
    RecordsSame(c, After(c, false, acts), inPath, After(c', false, same), n);
  }

  lemma SubRecordsInside(c: Config, s: State, n: Id)
    requires Ended(c, s) && n !in c.dag.Ids()
    ensures n !in s.core.results
  {
  }
}
