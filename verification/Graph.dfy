/**
 The strategy graph: nodes, edges, structural validation, neighbours and reachability.
 */
module Graph {
  import opened Wrappers
  import opened Ordering
  import opened JsonTree

  datatype Position = Position(x: real, y: real)

  datatype Node = Node(id: Id, typ: string, subtype: string, params: Raw, position: Option<Position>)

  datatype Edge = Edge(id: string, source: Id, sourceHandle: string, target: Id, targetHandle: string)

  datatype Dag = Dag(nodes: seq<Node>, edges: seq<Edge>)
  {
    function Ids(): set<Id>
    {
      set n | n in nodes :: n.id
    }

    ghost predicate HasEdge(a: Id, b: Id)
    {
      exists e {:trigger e in edges} :: e in edges && e.source == a && e.target == b
    }

    /** What `Validate` accepts: cycles are allowed. */
    ghost predicate Valid()
    {
      && nodes != []
      && (forall i :: 0 <= i < |nodes| ==> nodes[i].id != "" && nodes[i].typ != "")
      && (forall i, j :: 0 <= i < j < |nodes| ==> nodes[i].id != nodes[j].id)
      && (forall e {:trigger e in edges} :: e in edges ==>
            e.source != "" && e.target != "" && e.source != e.target && e.source in Ids() && e.target in Ids())
    }
  }

  // --- Validate ---------------------------------------------------------------------------

  datatype Defect =
    | NoNodes
    | MissingId(node: nat)
    | MissingType(node: nat)
    | DuplicateId(node: nat)
    | MissingEndpoint(edge: nat)
    | SelfLoop(edge: nat)
    | UnknownSource(edge: nat)
    | UnknownTarget(edge: nat)

  /** The fault a defect names is really there. */
  ghost predicate Exhibits(d: Dag, f: Defect)
  {
    match f
    case NoNodes => d.nodes == []
    case MissingId(i) => i < |d.nodes| && d.nodes[i].id == ""
    case MissingType(i) => i < |d.nodes| && d.nodes[i].typ == ""
    case DuplicateId(i) => i < |d.nodes| && exists j :: 0 <= j < i && d.nodes[j].id == d.nodes[i].id
    case MissingEndpoint(i) => i < |d.edges| && (d.edges[i].source == "" || d.edges[i].target == "")
    case SelfLoop(i) => i < |d.edges| && d.edges[i].source == d.edges[i].target
    case UnknownSource(i) => i < |d.edges| && d.edges[i].source !in d.Ids()
    case UnknownTarget(i) => i < |d.edges| && d.edges[i].target !in d.Ids()
  }

  /** An exhibited defect and validity exclude each other, whatever the defect. */
  lemma DefectMeansInvalid(d: Dag, f: Defect)
    requires Exhibits(d, f)
    ensures !d.Valid()
  {
    if f.MissingEndpoint? || f.SelfLoop? || f.UnknownSource? || f.UnknownTarget? {
      assert d.edges[f.edge] in d.edges;
    }
  }

  method Validate(d: Dag) returns (r: Option<Defect>)
    ensures r.None? <==> d.Valid()
    ensures r.Some? ==> Exhibits(d, r.value)
  {
    if |d.nodes| == 0 {
      return Some(NoNodes);
    }
    var seen: set<Id> := {};
    for i := 0 to |d.nodes|
      invariant forall k :: 0 <= k < i ==> d.nodes[k].id != "" && d.nodes[k].typ != "" && d.nodes[k].id in seen
      invariant forall k, l :: 0 <= k < l < i ==> d.nodes[k].id != d.nodes[l].id
      invariant forall x :: x in seen ==> exists k :: 0 <= k < i && d.nodes[k].id == x
    {
      var n := d.nodes[i];
      if n.id == "" {
        return Some(MissingId(i));
      }
      if n.typ == "" {
        return Some(MissingType(i));
      }
      if n.id in seen {
        return Some(DuplicateId(i));
      }
      seen := seen + {n.id};
    }
    assert seen == d.Ids();
    for i := 0 to |d.edges|
      invariant forall k :: 0 <= k < i ==>
        var e := d.edges[k];
        e.source != "" && e.target != "" && e.source != e.target && e.source in seen && e.target in seen
    {
      var e := d.edges[i];
      if e.source == "" || e.target == "" {
        DefectMeansInvalid(d, MissingEndpoint(i));
        return Some(MissingEndpoint(i));
      }
      if e.source == e.target {
        DefectMeansInvalid(d, SelfLoop(i));
        return Some(SelfLoop(i));
      }
      if e.source !in seen {
        DefectMeansInvalid(d, UnknownSource(i));
        return Some(UnknownSource(i));
      }
      if e.target !in seen {
        DefectMeansInvalid(d, UnknownTarget(i));
        return Some(UnknownTarget(i));
      }
    }
    r := None;
  }

  // --- lookup and neighbours --------------------------------------------------------------

  /** `NodeByID`: the first node with the id. */
  function NodeById(nodes: seq<Node>, id: Id): (r: Option<Node>)
    ensures r.Some? ==> r.value in nodes && r.value.id == id
    ensures r.None? ==> forall n :: n in nodes ==> n.id != id
  {
    if nodes == [] then None
    else if nodes[0].id == id then Some(nodes[0])
    else NodeById(nodes[1..], id)
  }

  lemma {:induction false} NodeByIdUnique(nodes: seq<Node>, n: Node)
    requires n in nodes && forall i, j :: 0 <= i < j < |nodes| ==> nodes[i].id != nodes[j].id
    ensures NodeById(nodes, n.id) == Some(n)
  {
    if nodes[0] == n {
    } else {
      var k :| 0 <= k < |nodes| && nodes[k] == n;
      assert nodes[0].id != nodes[k].id;
      assert nodes == [nodes[0]] + nodes[1..];
      NodeByIdUnique(nodes[1..], n);
    }
  }

  function Successors(edges: seq<Edge>, id: Id): seq<Id>
  {
    if edges == [] then [] else
      var e := edges[|edges| - 1];
      Successors(edges[..|edges| - 1], id) + if e.source == id then [e.target] else []
  }

  function Predecessors(edges: seq<Edge>, id: Id): seq<Id>
  {
    if edges == [] then [] else
      var e := edges[|edges| - 1];
      Predecessors(edges[..|edges| - 1], id) + if e.target == id then [e.source] else []
  }

  method SuccessorsOf(d: Dag, id: Id) returns (out: seq<Id>)
    ensures out == Successors(d.edges, id)
    ensures forall x :: x in out <==> d.HasEdge(id, x)
  {
    out := [];
    for i := 0 to |d.edges|
      invariant out == Successors(d.edges[..i], id)
    {
      assert d.edges[..i + 1][..i] == d.edges[..i];
      if d.edges[i].source == id {
        out := out + [d.edges[i].target];
      }
    }
    assert d.edges[..|d.edges|] == d.edges;
    SuccessorsExact(d, id);
  }

  method PredecessorsOf(d: Dag, id: Id) returns (out: seq<Id>)
    ensures out == Predecessors(d.edges, id)
    ensures forall x :: x in out <==> d.HasEdge(x, id)
  {
    out := [];
    for i := 0 to |d.edges|
      invariant out == Predecessors(d.edges[..i], id)
    {
      assert d.edges[..i + 1][..i] == d.edges[..i];
      if d.edges[i].target == id {
        out := out + [d.edges[i].source];
      }
    }
    assert d.edges[..|d.edges|] == d.edges;
    PredecessorsExact(d, id);
  }

  lemma {:induction false} SuccessorsIn(edges: seq<Edge>, id: Id, x: Id)
    ensures x in Successors(edges, id) <==> exists e :: e in edges && e.source == id && e.target == x
  {
    if edges != [] {
      var e := edges[|edges| - 1];
      SuccessorsIn(edges[..|edges| - 1], id, x);
      assert edges == edges[..|edges| - 1] + [e];
    }
  }

  lemma {:induction false} PredecessorsIn(edges: seq<Edge>, id: Id, x: Id)
    ensures x in Predecessors(edges, id) <==> exists e :: e in edges && e.target == id && e.source == x
  {
    if edges != [] {
      var e := edges[|edges| - 1];
      PredecessorsIn(edges[..|edges| - 1], id, x);
      assert edges == edges[..|edges| - 1] + [e];
    }
  }

  /** The successor list holds exactly the heads of the edges leaving the node. */
  lemma SuccessorsExact(d: Dag, id: Id)
    ensures forall x :: x in Successors(d.edges, id) <==> d.HasEdge(id, x)
  {
    forall x ensures x in Successors(d.edges, id) <==> d.HasEdge(id, x) {
      SuccessorsIn(d.edges, id, x);
    }
  }

  lemma PredecessorsExact(d: Dag, id: Id)
    ensures forall x :: x in Predecessors(d.edges, id) <==> d.HasEdge(x, id)
  {
    forall x ensures x in Predecessors(d.edges, id) <==> d.HasEdge(x, id) {
      PredecessorsIn(d.edges, id, x);
    }
  }

  // --- counting unmet predecessors --------------------------------------------------------

  /** How many edges into `n` start outside `met`; parallel edges count separately. */
  function Unmet(edges: seq<Edge>, met: set<Id>, n: Id): nat
  {
    if edges == [] then 0 else
      var e := edges[|edges| - 1];
      Unmet(edges[..|edges| - 1], met, n) + if e.target == n && e.source !in met then 1 else 0
  }

  lemma {:induction false} UnmetZero(edges: seq<Edge>, met: set<Id>, n: Id)
    ensures Unmet(edges, met, n) == 0 <==> forall e :: e in edges && e.target == n ==> e.source in met
  {
    if edges != [] {
      var e := edges[|edges| - 1];
      UnmetZero(edges[..|edges| - 1], met, n);
      assert edges == edges[..|edges| - 1] + [e];
    }
  }

  /** Meeting one more node moves its successor occurrences out of the count. */
  lemma {:induction false} UnmetStep(edges: seq<Edge>, met: set<Id>, m: Id, n: Id)
    requires m !in met
    ensures Unmet(edges, met, n) == Unmet(edges, met + {m}, n) + multiset(Successors(edges, m))[n]
  {
    if edges != [] {
      var e := edges[|edges| - 1];
      UnmetStep(edges[..|edges| - 1], met, m, n);
    }
  }

  lemma {:induction false} UnmetAll(edges: seq<Edge>, n: Id)
    ensures Unmet(edges, {}, n) == |Predecessors(edges, n)|
  {
    if edges != [] {
      UnmetAll(edges[..|edges| - 1], n);
    }
  }

  // --- paths ------------------------------------------------------------------------------

  /** Neighbours come in edge order: the lists of consecutive edges are put one after the other. */
  lemma {:induction false} NeighboursConcat(a: seq<Edge>, b: seq<Edge>, id: Id)
    ensures Successors(a + b, id) == Successors(a, id) + Successors(b, id)
    ensures Predecessors(a + b, id) == Predecessors(a, id) + Predecessors(b, id)
  {
    if b == [] {
      assert a + b == a;
    } else {
      NeighboursConcat(a, b[..|b| - 1], id);
      assert (a + b)[..|a + b| - 1] == a + b[..|b| - 1];
    }
  }

  /** One edge has its target as successor of its source, and its source as predecessor of its target. */
  lemma NeighboursOfOne(e: Edge, id: Id)
    ensures Successors([e], id) == if e.source == id then [e.target] else []
    ensures Predecessors([e], id) == if e.target == id then [e.source] else []
  {
    assert [e][..0] == [];
  }

  ghost predicate IsPath(d: Dag, p: seq<Id>)
  {
    |p| >= 1 && forall i :: 0 <= i < |p| - 1 ==> Link(d, p, i)
  }

  ghost predicate Link(d: Dag, p: seq<Id>, i: nat)
    requires i < |p| - 1
  {
    d.HasEdge(p[i], p[i + 1])
  }

  ghost predicate PathFromTo(d: Dag, p: seq<Id>, a: Id, b: Id)
  {
    |p| >= 2 && IsPath(d, p) && p[0] == a && p[|p| - 1] == b
  }

  /** `a` is a proper ancestor of `b`: at least one edge lies between them. */
  ghost predicate Reaches(d: Dag, a: Id, b: Id)
  {
    exists p :: PathFromTo(d, p, a, b)
  }

  ghost predicate Acyclic(d: Dag)
  {
    forall n :: !Reaches(d, n, n)
  }

  lemma EdgeReaches(d: Dag, a: Id, b: Id)
    requires d.HasEdge(a, b)
    ensures Reaches(d, a, b)
  {
    assert PathFromTo(d, [a, b], a, b);
  }

  lemma ReachesTransitive(d: Dag, a: Id, b: Id, c: Id)
    requires Reaches(d, a, b) && Reaches(d, b, c)
    ensures Reaches(d, a, c)
  {
    var p :| PathFromTo(d, p, a, b);
    var q :| PathFromTo(d, q, b, c);
    var r := p + q[1..];
    forall i | 0 <= i < |r| - 1 ensures Link(d, r, i) {
      if i >= |p| - 1 {
        assert Link(d, q, i - (|p| - 1));
      } else {
        assert Link(d, p, i);
      }
    }
    assert PathFromTo(d, r, a, c);
  }

  /** Every path starts with an edge. */
  lemma ReachesFirst(d: Dag, a: Id, b: Id) returns (x: Id)
    requires Reaches(d, a, b)
    ensures d.HasEdge(a, x) && (x == b || Reaches(d, x, b))
  {
    var p :| PathFromTo(d, p, a, b);
    x := p[1];
    assert Link(d, p, 0);
    if |p| > 2 {
      var q := p[1..];
      forall i | 0 <= i < |q| - 1 ensures Link(d, q, i) {
        assert Link(d, p, i + 1);
      }
      assert PathFromTo(d, q, x, b);
    }
  }

  /** Every path ends with an edge. */
  lemma ReachesLast(d: Dag, a: Id, b: Id) returns (x: Id)
    requires Reaches(d, a, b)
    ensures d.HasEdge(x, b) && (x == a || Reaches(d, a, x))
  {
    var p :| PathFromTo(d, p, a, b);
    x := p[|p| - 2];
    assert Link(d, p, |p| - 2);
    if |p| > 2 {
      var q := p[..|p| - 1];
      forall i | 0 <= i < |q| - 1 ensures Link(d, q, i) {
        assert Link(d, p, i);
      }
      assert PathFromTo(d, q, a, x);
    }
  }

  /** A set closed under predecessors holds every ancestor of its members. */
  lemma ClosedUnderAncestors(d: Dag, s: set<Id>, a: Id, b: Id)
    requires forall x, y {:trigger d.HasEdge(x, y)} :: d.HasEdge(x, y) && y in s ==> x in s
    requires b in s && Reaches(d, a, b)
    ensures a in s
  {
    var p :| PathFromTo(d, p, a, b);
    var i := |p| - 1;
    while i > 0
      invariant 0 <= i < |p|
      invariant p[i] in s
    {
      assert Link(d, p, i - 1);
      i := i - 1;
    }
  }

  /** A set closed under successors holds every descendant of its members. */
  lemma ClosedUnderDescendants(d: Dag, s: set<Id>, a: Id, b: Id)
    requires forall x, y {:trigger d.HasEdge(x, y)} :: d.HasEdge(x, y) && x in s ==> y in s
    requires a in s && Reaches(d, a, b)
    ensures b in s
  {
    var p :| PathFromTo(d, p, a, b);
    var i := 0;
    while i < |p| - 1
      invariant 0 <= i < |p|
      invariant p[i] in s
    {
      assert Link(d, p, i);
      i := i + 1;
    }
  }

  /** On a valid graph both ends of an edge, hence of a path, are nodes. */
  lemma ReachesNodes(d: Dag, a: Id, b: Id)
    requires d.Valid() && Reaches(d, a, b)
    ensures a in d.Ids() && b in d.Ids()
  {
    var x := ReachesFirst(d, a, b);
    var y := ReachesLast(d, a, b);
  }

  // --- counting ---------------------------------------------------------------------------

  /** Pigeonhole: a list without repetition is no longer than a set that holds it. */
  lemma {:induction false} NoDupFits(p: seq<Id>, s: set<Id>)
    requires NoDup(p) && forall x :: x in p ==> x in s
    ensures |p| <= |s|
  {
    if |p| > 0 {
      var l := p[|p| - 1];
      var q := p[..|p| - 1];
      assert l !in q;
      NoDupFits(q, s - {l});
    }
  }

  /** A list without repetition that lists exactly a set has its size. */
  lemma {:induction false} NoDupSize(p: seq<Id>, s: set<Id>)
    requires NoDup(p) && forall x :: x in p <==> x in s
    ensures |p| == |s|
  {
    if |p| > 0 {
      var l := p[|p| - 1];
      var q := p[..|p| - 1];
      assert l !in q;
      NoDupSize(q, s - {l});
    } else {
      assert s == {};
    }
  }

  lemma IdCount(d: Dag)
    requires d.Valid()
    ensures |d.Ids()| == |d.nodes|
  {
    var p := seq(|d.nodes|, i requires 0 <= i < |d.nodes| => d.nodes[i].id);
    forall x ensures x in p <==> x in d.Ids() {
      if x in d.Ids() {
        var n :| n in d.nodes && n.id == x;
        var i :| 0 <= i < |d.nodes| && d.nodes[i] == n;
        assert p[i] == x;
      }
      if x in p {
        var i :| 0 <= i < |p| && p[i] == x;
        assert d.nodes[i] in d.nodes;
      }
    }
    NoDupSize(p, d.Ids());
  }
}
