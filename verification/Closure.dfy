/**
 The two breadth-first closures of the run engine: the descendants of a failed node, and the nodes
 that lead to a target.
 */
module Closure {
  import opened Ordering
  import opened Graph
  import opened TopoSort

  // --- descendants ------------------------------------------------------------------------

  /** The children not seen before, in order, each once. */
  function Unseen(children: seq<Id>, visited: set<Id>): (r: seq<Id>)
    ensures forall x :: x in r <==> x in children && x !in visited
    ensures NoDup(r)
  {
    if children == [] then []
    else
      var prefix := Unseen(children[..|children| - 1], visited);
      var c := children[|children| - 1];
      if c in visited || c in prefix then prefix else prefix + [c]
  }

  /** The breadth-first search of `collectDescendants`, one queue head per call. */
  function Bfs(d: Dag, queue: seq<Id>, visited: set<Id>, out: seq<Id>): seq<Id>
    requires d.Valid()
    decreases |d.Ids() - visited|, |queue|
  {
    if queue == [] then out
    else
      var added := Unseen(Successors(d.edges, queue[0]), visited);
      UnseenShrinks(d, queue[0], visited);
      Bfs(d, queue[1..] + added, visited + Elems(added), out + added)
  }

  lemma UnseenShrinks(d: Dag, h: Id, visited: set<Id>)
    requires d.Valid()
    ensures
      var added := Unseen(Successors(d.edges, h), visited);
      added == [] || |d.Ids() - (visited + Elems(added))| < |d.Ids() - visited|
    ensures
      var added := Unseen(Successors(d.edges, h), visited);
      added == [] ==> visited + Elems(added) == visited
  {
    var added := Unseen(Successors(d.edges, h), visited);
    if added != [] {
      var x := added[0];
      assert x in added;
      SuccessorsExact(d, h);
      assert d.HasEdge(h, x);
      assert d.Ids() - (visited + Elems(added)) <= (d.Ids() - visited) - {x};
      SubsetSize(d.Ids() - (visited + Elems(added)), (d.Ids() - visited) - {x});
    }
  }

  function Descendants(d: Dag, start: Id): seq<Id>
    requires d.Valid()
  {
    Bfs(d, [start], {start}, [])
  }

  /** Everything visited came from `start`, and only queued nodes still have unvisited children. */
  ghost predicate Searching(d: Dag, start: Id, queue: seq<Id>, visited: set<Id>, out: seq<Id>)
  {
    && NoDup(out) && start !in out
    && visited == Elems(out) + {start}
    && (forall x :: x in out ==> Reaches(d, start, x))
    && (forall x :: x in queue ==> x in visited)
    && (forall x, y {:trigger d.HasEdge(x, y)} :: d.HasEdge(x, y) && x in visited && x !in queue ==> y in visited)
  }

  lemma NoDupConcat(a: seq<Id>, b: seq<Id>)
    requires NoDup(a) && NoDup(b) && forall x :: x in b ==> x !in a
    ensures NoDup(a + b)
  {
    var c := a + b;
    forall i, j | 0 <= i < j < |c| ensures c[i] != c[j] {
      if i < |a| <= j {
        assert c[i] in a && c[j] in b;
      }
    }
  }

  lemma SearchStep(d: Dag, start: Id, queue: seq<Id>, visited: set<Id>, out: seq<Id>)
    requires Searching(d, start, queue, visited, out) && queue != []
    ensures
      var added := Unseen(Successors(d.edges, queue[0]), visited);
      Searching(d, start, queue[1..] + added, visited + Elems(added), out + added)
  {
    var h := queue[0];
    var added := Unseen(Successors(d.edges, h), visited);
    SuccessorsExact(d, h);
    NoDupConcat(out, added);
    forall x | x in added ensures Reaches(d, start, x) {
      assert d.HasEdge(h, x);
      EdgeReaches(d, h, x);
      if h != start {
        ReachesTransitive(d, start, h, x);
      }
    }
    assert queue == [h] + queue[1..];
  }

  lemma {:induction false} BfsExact(d: Dag, start: Id, queue: seq<Id>, visited: set<Id>, out: seq<Id>)
    requires d.Valid() && Searching(d, start, queue, visited, out)
    ensures NoDup(Bfs(d, queue, visited, out))
    ensures forall x :: x in Bfs(d, queue, visited, out) <==> x != start && Reaches(d, start, x)
    decreases |d.Ids() - visited|, |queue|
  {
    if queue == [] {
      forall x | Reaches(d, start, x) ensures x in visited {
        ClosedUnderDescendants(d, visited, start, x);
      }
    } else {
      var added := Unseen(Successors(d.edges, queue[0]), visited);
      SearchStep(d, start, queue, visited, out);
      UnseenShrinks(d, queue[0], visited);
      BfsExact(d, start, queue[1..] + added, visited + Elems(added), out + added);
    }
  }

  /** The search returns exactly the nodes reached from `start`, other than `start`, each once. */
  lemma DescendantsExact(d: Dag, start: Id)
    requires d.Valid()
    ensures NoDup(Descendants(d, start))
    ensures forall x :: x in Descendants(d, start) <==> x != start && Reaches(d, start, x)
  {
    BfsExact(d, start, [start], {start}, []);
  }

  /** The inner loop: each child not seen yet is marked, listed and queued. */
  method Visit(children: seq<Id>, queue0: seq<Id>, visited0: set<Id>, out0: seq<Id>)
    returns (queue: seq<Id>, visited: set<Id>, out: seq<Id>)
    ensures queue == queue0 + Unseen(children, visited0)
    ensures visited == visited0 + Elems(Unseen(children, visited0))
    ensures out == out0 + Unseen(children, visited0)
  {
    queue, visited, out := queue0, visited0, out0;
    for i := 0 to |children|
      invariant queue == queue0 + Unseen(children[..i], visited0)
      invariant visited == visited0 + Elems(Unseen(children[..i], visited0))
      invariant out == out0 + Unseen(children[..i], visited0)
    {
      assert children[..i + 1][..i] == children[..i];
      if children[i] !in visited {
        visited := visited + {children[i]};
        out := out + [children[i]];
        queue := queue + [children[i]];
      }
    }
    assert children[..|children|] == children;
  }

  method CollectDescendants(start: Id, d: Dag) returns (out: seq<Id>)
    requires d.Valid()
    ensures out == Descendants(d, start)
    ensures NoDup(out) && forall x :: x in out <==> x != start && Reaches(d, start, x)
  {
    out := [];
    var visited := {start};
    var queue := [start];
    while |queue| > 0
      invariant Bfs(d, queue, visited, out) == Descendants(d, start)
      decreases |d.Ids() - visited|, |queue|
    {
      var head := queue[0];
      UnseenShrinks(d, head, visited);
      var children := SuccessorsOf(d, head);
      queue, visited, out := Visit(children, queue[1..], visited, out);
    }
    DescendantsExact(d, start);
  }

  // --- the nodes leading to a target --------------------------------------------------------

  ghost predicate LeadsTo(d: Dag, x: Id, target: Id)
  {
    x == target || Reaches(d, x, target)
  }

  /** Only queued nodes may have predecessors that are not collected yet. */
  ghost predicate Collecting(d: Dag, target: Id, queue: seq<Id>, inPath: set<Id>)
  {
    && (forall x :: x in inPath ==> LeadsTo(d, x, target))
    && (forall x :: x in queue ==> LeadsTo(d, x, target))
    && (target in inPath || target in queue)
    && (forall x, y {:trigger d.HasEdge(x, y)} :: d.HasEdge(x, y) && y in inPath ==> x in inPath || x in queue)
  }

  lemma CollectStep(d: Dag, target: Id, queue: seq<Id>, inPath: set<Id>)
    requires Collecting(d, target, queue, inPath) && queue != []
    ensures queue[0] in inPath ==> Collecting(d, target, queue[1..], inPath)
    ensures queue[0] !in inPath ==>
      Collecting(d, target, queue[1..] + Predecessors(d.edges, queue[0]), inPath + {queue[0]})
  {
    var h := queue[0];
    assert queue == [h] + queue[1..];
    PredecessorsExact(d, h);
    forall x | x in Predecessors(d.edges, h) ensures LeadsTo(d, x, target) {
      EdgeReaches(d, x, h);
      assert h in queue;
      if h != target {
        ReachesTransitive(d, x, h, target);
      }
    }
  }

  /**
   The backward closure of `ExecuteToNode`: exactly the nodes from which the target can be reached.
   It ends on every graph, cyclic or not.
   */
  method CollectPath(d: Dag, target: Id) returns (inPath: set<Id>)
    requires target in d.Ids()
    ensures forall x :: x in inPath <==> LeadsTo(d, x, target)
  {
    inPath := {};
    var queue := [target];
    ghost var universe := {target} + set e | e in d.edges :: e.source;
    while |queue| > 0
      invariant Collecting(d, target, queue, inPath)
      invariant forall x :: x in queue ==> x in universe
      decreases |universe - inPath|, |queue|
    {
      CollectStep(d, target, queue, inPath);
      var head := queue[0];
      queue := queue[1..];
      if head !in inPath {
        assert universe - (inPath + {head}) == (universe - inPath) - {head};
        inPath := inPath + {head};
        var preds := PredecessorsOf(d, head);
        queue := queue + preds;
      }
    }
    forall x | LeadsTo(d, x, target) ensures x in inPath {
      if x != target {
        ClosedUnderAncestors(d, inPath, x, target);
      }
    }
  }
}
