/**
 Kahn's algorithm with a sorted ready queue.  On a valid graph it succeeds exactly when there is no
 cycle, and then returns the least of all topological orders, whatever the order of the node and
 edge lists.
 */
module TopoSort {
  import opened Wrappers
  import opened Ordering
  import opened Graph

  // --- orders -----------------------------------------------------------------------------

  function Elems(o: seq<Id>): set<Id>
  {
    set x | x in o
  }

  /** A duplicate-free list of nodes in which each comes after the sources of all its edges. */
  ghost predicate TopoPrefix(d: Dag, o: seq<Id>)
  {
    && NoDup(o)
    && (forall x :: x in o ==> x in d.Ids())
    && (forall k, a :: 0 <= k < |o| && d.HasEdge(a, o[k]) ==> a in o[..k])
  }

  /** No node outside `o` could be appended: each waits for another node outside `o`. */
  ghost predicate Stuck(d: Dag, o: seq<Id>)
  {
    forall n {:trigger Waits(d, o, n)} :: n in d.Ids() && n !in o ==> Waits(d, o, n)
  }

  ghost predicate Waits(d: Dag, o: seq<Id>, n: Id)
  {
    exists a {:trigger d.HasEdge(a, n)} :: d.HasEdge(a, n) && a !in o
  }

  /** What Kahn's loop has emitted when its ready queue is empty. */
  ghost predicate KahnOrder(d: Dag, o: seq<Id>)
  {
    TopoPrefix(d, o) && Stuck(d, o)
  }

  ghost predicate TopoOrder(d: Dag, o: seq<Id>)
  {
    TopoPrefix(d, o) && forall n :: n in d.Ids() ==> n in o
  }

  /** `n` may come next after `o`. */
  ghost predicate Available(d: Dag, o: seq<Id>, n: Id)
  {
    n in d.Ids() && n !in o && forall a :: d.HasEdge(a, n) ==> a in o
  }

  /** Each element is the least one that could stand there. */
  ghost predicate LeastFirst(d: Dag, o: seq<Id>)
  {
    forall k, n :: 0 <= k < |o| && Available(d, o[..k], n) ==> !Less(n, o[k])
  }

  ghost predicate LexBelow(a: seq<Id>, b: seq<Id>)
  {
    a == b || exists k :: 0 <= k < |a| && k < |b| && a[..k] == b[..k] && Less(a[k], b[k])
  }

  // --- which nodes are emitted ------------------------------------------------------------

  /** Whatever a topological prefix reaches, a stuck order already has. */
  lemma {:induction false} PrefixInStuck(d: Dag, p: seq<Id>, o: seq<Id>)
    requires TopoPrefix(d, p) && Stuck(d, o)
    ensures forall x :: x in p ==> x in o
  {
    if |p| > 0 {
      var q, l := p[..|p| - 1], p[|p| - 1];
      forall k, a | 0 <= k < |q| && d.HasEdge(a, q[k]) ensures a in q[..k] {
        assert d.HasEdge(a, p[k]) && p[..k] == q[..k];
      }
      PrefixInStuck(d, q, o);
      assert l !in o ==> Waits(d, o, l);
      forall a | d.HasEdge(a, l) ensures a in o {
        assert d.HasEdge(a, p[|p| - 1]);
        assert a in q;
      }
    }
  }

  /** All Kahn orders of a graph emit the same nodes. */
  lemma KahnSetUnique(d: Dag, o1: seq<Id>, o2: seq<Id>)
    requires KahnOrder(d, o1) && KahnOrder(d, o2)
    ensures Elems(o1) == Elems(o2)
  {
    PrefixInStuck(d, o1, o2);
    PrefixInStuck(d, o2, o1);
  }

  /** An emitted node has no ancestor on a cycle. */
  lemma EmittedAcyclic(d: Dag, o: seq<Id>, c: Id, n: Id)
    requires TopoPrefix(d, o) && n in o && Reaches(d, c, c)
    ensures c != n && !Reaches(d, c, n)
  {
    if c == n || Reaches(d, c, n) {
      EmittedClosed(d, o, c, n);
      var j :| 0 <= j < |o| && o[j] == c;
      EmittedBefore(d, o, j, c);
    }
  }

  lemma EmittedClosed(d: Dag, o: seq<Id>, a: Id, n: Id)
    requires TopoPrefix(d, o) && n in o && (a == n || Reaches(d, a, n))
    ensures a in o
  {
    forall x, y | d.HasEdge(x, y) && y in Elems(o) ensures x in Elems(o) {
      var k :| 0 <= k < |o| && o[k] == y;
    }
    if a != n {
      ClosedUnderAncestors(d, Elems(o), a, n);
    }
  }

  /** All ancestors of position `k` lie before it. */
  lemma EmittedBefore(d: Dag, o: seq<Id>, k: nat, a: Id)
    requires TopoPrefix(d, o) && k < |o| && Reaches(d, a, o[k])
    ensures a in o[..k]
    decreases k
  {
    var x := ReachesLast(d, a, o[k]);
    if x != a {
      var j :| 0 <= j < k && o[j] == x;
      EmittedBefore(d, o, j, a);
      assert o[..j] <= o[..k];
    }
  }

  /** A node left out of a stuck order has backward walks of every length that stay out. */
  lemma {:induction false} BackwardWalk(d: Dag, o: seq<Id>, n: Id, len: nat) returns (p: seq<Id>)
    requires d.Valid() && Stuck(d, o) && n in d.Ids() && n !in o && len >= 1
    ensures |p| == len && IsPath(d, p) && p[len - 1] == n
    ensures forall x :: x in p ==> x in d.Ids() - Elems(o)
    decreases len
  {
    if len == 1 {
      p := [n];
    } else {
      assert Waits(d, o, n);
      var a :| d.HasEdge(a, n) && a !in o;
      var q := BackwardWalk(d, o, a, len - 1);
      PathExtend(d, q, n);
      p := q + [n];
    }
  }

  lemma PathExtend(d: Dag, q: seq<Id>, n: Id)
    requires IsPath(d, q) && d.HasEdge(q[|q| - 1], n)
    ensures IsPath(d, q + [n])
  {
    var p := q + [n];
    forall i | 0 <= i < |p| - 1 ensures Link(d, p, i) {
      if i < |q| - 1 {
        assert Link(d, q, i);
      }
    }
  }

  /** Pigeonhole: a list longer than the set it is drawn from repeats itself. */
  lemma Repetition(p: seq<Id>, s: set<Id>) returns (i: nat, j: nat)
    requires |p| > |s| && forall x :: x in p ==> x in s
    ensures i < j < |p| && p[i] == p[j]
  {
    if NoDup(p) {
      NoDupFits(p, s);
      assert false;
    }
    i, j :| 0 <= i < j < |p| && p[i] == p[j];
  }

  lemma PathSegment(d: Dag, p: seq<Id>, i: nat, j: nat)
    requires IsPath(d, p) && i < j < |p|
    ensures Reaches(d, p[i], p[j])
  {
    var q := p[i..j + 1];
    forall k | 0 <= k < |q| - 1 ensures Link(d, q, k) {
      assert Link(d, p, i + k);
    }
    assert PathFromTo(d, q, p[i], p[j]);
  }

  /** A node that is not emitted has a cycle behind it, or lies on one. */
  lemma LeftOutBehindCycle(d: Dag, o: seq<Id>, n: Id) returns (c: Id)
    requires d.Valid() && Stuck(d, o) && n in d.Ids() && n !in o
    ensures Reaches(d, c, c) && (c == n || Reaches(d, c, n))
  {
    var s := d.Ids() - Elems(o);
    var p := BackwardWalk(d, o, n, |s| + 1);
    var i, j := Repetition(p, s);
    PathSegment(d, p, i, j);
    c := p[i];
    if c != n {
      PathSegment(d, p, i, |p| - 1);
    }
  }

  /** Kahn's loop emits exactly the nodes with no cycle at or above them. */
  lemma KahnEmits(d: Dag, o: seq<Id>, n: Id)
    requires d.Valid() && KahnOrder(d, o)
    ensures n in o <==> n in d.Ids() && forall c :: Reaches(d, c, c) ==> c != n && !Reaches(d, c, n)
  {
    if n in o {
      forall c | Reaches(d, c, c) ensures c != n && !Reaches(d, c, n) {
        EmittedAcyclic(d, o, c, n);
      }
    } else if n in d.Ids() {
      var c := LeftOutBehindCycle(d, o, n);
    }
  }

  /** The emitted list is complete exactly when the graph has no cycle. */
  lemma CompleteIffAcyclic(d: Dag, o: seq<Id>)
    requires d.Valid() && KahnOrder(d, o)
    ensures TopoOrder(d, o) <==> Acyclic(d)
    ensures TopoOrder(d, o) <==> |o| == |d.nodes|
  {
    if Acyclic(d) {
      forall n | n in d.Ids() ensures n in o {
        KahnEmits(d, o, n);
      }
    }
    if TopoOrder(d, o) {
      forall n ensures !Reaches(d, n, n) {
        if Reaches(d, n, n) {
          ReachesNodes(d, n, n);
          KahnEmits(d, o, n);
        }
      }
    }
    IdCount(d);
    NoDupSize(o, Elems(o));
    if |o| == |d.nodes| {
      SubsetSameSize(Elems(o), d.Ids());
    }
    assert TopoOrder(d, o) ==> Elems(o) == d.Ids();
  }

  lemma SubsetSameSize(a: set<Id>, b: set<Id>)
    requires a <= b && |a| == |b|
    ensures a == b
  {
    if a != b {
      var x :| x in b && x !in a;
      assert a <= b - {x};
      SubsetSize(a, b - {x});
    }
  }

  lemma {:induction false} SubsetSize(a: set<Id>, b: set<Id>)
    requires a <= b
    ensures |a| <= |b|
  {
    if a != {} {
      var x :| x in a;
      SubsetSize(a - {x}, b - {x});
    }
  }

  // --- the least order --------------------------------------------------------------------

  /** Taking the least available node each time gives the least of all topological orders. */
  lemma GreedyIsLeast(d: Dag, o: seq<Id>, p: seq<Id>)
    requires TopoOrder(d, o) && LeastFirst(d, o) && TopoOrder(d, p)
    ensures LexBelow(o, p)
  {
    NoDupSize(o, d.Ids());
    NoDupSize(p, d.Ids());
    var k := 0;
    while k < |o| && o[k] == p[k]
      invariant 0 <= k <= |o|
      invariant o[..k] == p[..k]
    {
      assert o[..k + 1] == o[..k] + [o[k]] && p[..k + 1] == p[..k] + [p[k]];
      k := k + 1;
    }
    if k < |o| {
      assert Available(d, o[..k], p[k]) by {
        assert p[k] in p;
      }
      LessTotal(o[k], p[k]);
    } else {
      assert o == o[..k] && p == p[..k];
    }
  }

  // --- the algorithm ----------------------------------------------------------------------

  datatype SortError = Invalid(defect: Defect) | Cycle(sorted: nat, total: nat)

  /** Each node's counter is the number of its edges from nodes not emitted, plus those still owed. */
  ghost predicate InDegreesExact(d: Dag, indeg: map<Id, int>, out: seq<Id>, rest: seq<Id>)
  {
    && d.Ids() <= indeg.Keys
    && forall n :: n in d.Ids() ==> indeg[n] == Unmet(d.edges, Elems(out), n) + multiset(rest)[n]
  }

  /** Emitted or queued is the same as having a zero counter. */
  ghost predicate QueueExact(d: Dag, indeg: map<Id, int>, out: seq<Id>, ready: seq<Id>)
    requires d.Ids() <= indeg.Keys
  {
    && NoDup(out + ready)
    && Sorted(ready)
    && (forall n :: n in ready ==> n in d.Ids())
    && (forall n :: n in d.Ids() ==> (n in out || n in ready <==> indeg[n] == 0))
  }

  lemma AvailableIsQueued(d: Dag, indeg: map<Id, int>, out: seq<Id>, ready: seq<Id>)
    requires InDegreesExact(d, indeg, out, []) && QueueExact(d, indeg, out, ready)
    ensures forall n :: n in ready <==> Available(d, out, n)
  {
    forall n ensures n in ready <==> Available(d, out, n) {
      UnmetZero(d.edges, Elems(out), n);
      assert n in ready ==> n !in out by {
        if n in ready {
          var i :| 0 <= i < |ready| && ready[i] == n;
          assert forall j :: 0 <= j < |out| ==> (out + ready)[j] == out[j];
          assert (out + ready)[|out| + i] == n;
        }
      }
      assert multiset([])[n] == 0;
      assert forall e {:trigger e in d.edges} :: e in d.edges && e.target == n ==> d.HasEdge(e.source, n);
    }
  }

  /** Appending the least available node keeps the emitted list topological and least. */
  lemma EmitNext(d: Dag, out: seq<Id>, h: Id)
    requires TopoPrefix(d, out) && LeastFirst(d, out) && Available(d, out, h)
    requires forall n :: Available(d, out, n) ==> !Less(n, h)
    ensures TopoPrefix(d, out + [h]) && LeastFirst(d, out + [h])
  {
    var o := out + [h];
    assert forall k :: 0 <= k <= |out| ==> o[..k] == out[..k];
    assert out[..|out|] == out;
  }

  lemma InsertedNoDup(out: seq<Id>, ready: seq<Id>, v: Id)
    requires NoDup(out + ready) && v !in out && v !in ready
    ensures NoDup(out + Inserted(ready, v))
  {
    var k := LowerBound(ready, v);
    var s, t := out + ready, out + Inserted(ready, v);
    forall i, j | 0 <= i < j < |t| ensures t[i] != t[j] {
      var m := |out| + k;
      assert t[i] == if i < m then s[i] else if i == m then v else s[i - 1];
      assert t[j] == if j < m then s[j] else if j == m then v else s[j - 1];
      assert v !in s;
    }
  }

  lemma InsertedElements(s: seq<Id>, v: Id)
    ensures forall x :: x in Inserted(s, v) <==> x == v || x in s
  {
    var k := LowerBound(s, v);
    assert s == s[..k] + s[k..];
  }

  /** Handling one owed occurrence of `c`: its counter drops, and at zero it is queued. */
  lemma Released(d: Dag, indeg: map<Id, int>, out: seq<Id>, ready: seq<Id>, rest: seq<Id>)
    requires d.Valid() && |rest| > 0 && rest[0] in d.Ids()
    requires InDegreesExact(d, indeg, out, rest) && QueueExact(d, indeg, out, ready)
    ensures
      var c := rest[0];
      var indeg' := indeg[c := indeg[c] - 1];
      && InDegreesExact(d, indeg', out, rest[1..])
      && QueueExact(d, indeg', out, if indeg'[c] == 0 then Inserted(ready, c) else ready)
  {
    var indeg' := indeg[rest[0] := indeg[rest[0]] - 1];
    CounterLowered(d, indeg, out, rest, indeg');
    QueuedAtZero(d, indeg, out, ready, rest[0], indeg');
  }

  lemma CounterLowered(d: Dag, indeg: map<Id, int>, out: seq<Id>, rest: seq<Id>, indeg': map<Id, int>)
    requires |rest| > 0 && rest[0] in d.Ids() && InDegreesExact(d, indeg, out, rest)
    requires indeg' == indeg[rest[0] := indeg[rest[0]] - 1]
    ensures InDegreesExact(d, indeg', out, rest[1..]) && indeg[rest[0]] >= 1
  {
    assert rest == [rest[0]] + rest[1..];
  }

  lemma QueuedAtZero(d: Dag, indeg: map<Id, int>, out: seq<Id>, ready: seq<Id>, c: Id, indeg': map<Id, int>)
    requires d.Ids() <= indeg.Keys && QueueExact(d, indeg, out, ready) && c in d.Ids() && indeg[c] >= 1
    requires indeg' == indeg[c := indeg[c] - 1]
    ensures QueueExact(d, indeg', out, if indeg'[c] == 0 then Inserted(ready, c) else ready)
  {
    InsertedNoDup(out, ready, c);
    InsertedSorted(ready, c);
    InsertedElements(ready, c);
  }

  /** The counters right after a node leaves the queue: its successors are now owed. */
  lemma Emitted(d: Dag, indeg: map<Id, int>, out: seq<Id>, h: Id, rest: seq<Id>)
    requires InDegreesExact(d, indeg, out, []) && h !in out
    requires multiset(rest) == multiset(Successors(d.edges, h))
    ensures InDegreesExact(d, indeg, out + [h], rest)
  {
    assert Elems(out + [h]) == Elems(out) + {h};
    forall n | n in d.Ids()
      ensures indeg[n] == Unmet(d.edges, Elems(out + [h]), n) + multiset(rest)[n]
    {
      UnmetStep(d.edges, Elems(out), h, n);
    }
  }

  /** The table holds each node's successors, in some order. */
  ghost predicate Lists(d: Dag, adj: map<Id, seq<Id>>)
  {
    forall n :: multiset(Entry(adj, n)) == multiset(Successors(d.edges, n))
  }

  function Entry(adj: map<Id, seq<Id>>, n: Id): seq<Id>
  {
    if n in adj then adj[n] else []
  }

  /** What one more edge adds to a node's counter. */
  lemma CounterStep(edges: seq<Edge>, i: nat, n: Id)
    requires i < |edges|
    ensures Unmet(edges[..i + 1], {}, n) == Unmet(edges[..i], {}, n) + if edges[i].target == n then 1 else 0
  {
    assert edges[..i + 1][..i] == edges[..i];
  }

  /** What one more edge adds to a node's successor list. */
  lemma ListStep(edges: seq<Edge>, i: nat, n: Id)
    requires i < |edges|
    ensures Successors(edges[..i + 1], n) ==
            if edges[i].source == n then Successors(edges[..i], n) + [edges[i].target] else Successors(edges[..i], n)
  {
    assert edges[..i + 1][..i] == edges[..i];
  }

  /** The in-degree table, filled edge by edge. */
  method InDegrees(d: Dag) returns (indeg: map<Id, int>)
    requires d.Valid()
    ensures InDegreesExact(d, indeg, [], [])
  {
    indeg := map n | n in d.Ids() :: 0;
    for i := 0 to |d.edges|
      invariant indeg.Keys == d.Ids()
      invariant forall n :: n in d.Ids() ==> indeg[n] == Unmet(d.edges[..i], {}, n)
    {
      assert d.edges[i] in d.edges;
      forall n { CounterStep(d.edges, i, n); }
      var t := d.edges[i].target;
      indeg := indeg[t := indeg[t] + 1];
    }
    assert d.edges[..|d.edges|] == d.edges;
    assert Elems([]) == {};
  }

  /** The successor lists, filled edge by edge. */
  method Adjacency(d: Dag) returns (adj: map<Id, seq<Id>>)
    ensures Lists(d, adj)
  {
    adj := map[];
    for i := 0 to |d.edges|
      invariant forall n :: Entry(adj, n) == Successors(d.edges[..i], n)
    {
      var s := d.edges[i].source;
      ghost var was := adj;
      adj := adj[s := Entry(adj, s) + [d.edges[i].target]];
      forall n ensures Entry(adj, n) == Successors(d.edges[..i + 1], n) {
        ListStep(d.edges, i, n);
        assert Entry(was, n) == Successors(d.edges[..i], n);
      }
    }
    assert d.edges[..|d.edges|] == d.edges;
  }

  /** Every successor list sorted in place, in whatever order the table is walked. */
  method SortTable(d: Dag, table: map<Id, seq<Id>>) returns (adj: map<Id, seq<Id>>)
    requires Lists(d, table)
    ensures Lists(d, adj) && forall n :: n in adj ==> Sorted(adj[n])
  {
    adj := table;
    var keys := adj.Keys;
    while keys != {}
      invariant keys <= adj.Keys
      invariant Lists(d, adj)
      invariant forall n :: n in adj && n !in keys ==> Sorted(adj[n])
      decreases keys
    {
      var k :| k in keys;
      var sorted := SortedCopy(adj[k]);
      adj := adj[k := sorted];
      keys := keys - {k};
    }
  }

  method InitialQueue(d: Dag, indeg: map<Id, int>) returns (ready: seq<Id>)
    requires d.Valid() && d.Ids() <= indeg.Keys
    ensures QueueExact(d, indeg, [], ready)
  {
    var unsorted := ZeroCounters(d, indeg);
    ready := SortedCopy(unsorted);
    NoDupByMultiset(unsorted, ready);
    forall n ensures n in ready <==> n in d.Ids() && indeg[n] == 0 {
      assert n in ready <==> n in multiset(unsorted);
      assert n in unsorted <==> n in multiset(unsorted);
    }
    assert [] + ready == ready;
  }

  /** The nodes whose counter is zero, in list order. */
  method ZeroCounters(d: Dag, indeg: map<Id, int>) returns (ready: seq<Id>)
    requires d.Valid() && d.Ids() <= indeg.Keys
    ensures NoDup(ready) && forall n :: n in ready <==> n in d.Ids() && indeg[n] == 0
  {
    ready := [];
    for i := 0 to |d.nodes|
      invariant forall n :: n in ready ==> exists k :: 0 <= k < i && d.nodes[k].id == n
      invariant forall n :: n in ready ==> n in d.Ids() && indeg[n] == 0
      invariant forall k :: 0 <= k < i && indeg[d.nodes[k].id] == 0 ==> d.nodes[k].id in ready
      invariant NoDup(ready)
    {
      assert d.nodes[i] in d.nodes;
      assert d.nodes[i].id !in ready;
      if indeg[d.nodes[i].id] == 0 {
        ready := ready + [d.nodes[i].id];
      }
    }
    forall n | n in d.Ids() ensures n in ready <==> indeg[n] == 0 {
      var m :| m in d.nodes && m.id == n;
      var k :| 0 <= k < |d.nodes| && d.nodes[k] == m;
    }
  }

  lemma {:induction false} NoDupMultiset(s: seq<Id>)
    ensures NoDup(s) <==> forall x :: multiset(s)[x] <= 1
  {
    if |s| > 0 {
      var q, l := s[..|s| - 1], s[|s| - 1];
      assert s == q + [l];
      NoDupMultiset(q);
      assert l in q <==> multiset(q)[l] > 0;
      if NoDup(s) {
        forall x ensures multiset(s)[x] <= 1 {
          assert l !in q;
        }
      }
      if forall x :: multiset(s)[x] <= 1 {
        forall x ensures multiset(q)[x] <= 1 {
          assert multiset(s)[x] <= 1;
        }
        assert multiset(s)[l] <= 1;
        assert l !in q;
      }
    }
  }

  lemma NoDupByMultiset(a: seq<Id>, b: seq<Id>)
    requires NoDup(a) && multiset(a) == multiset(b)
    ensures NoDup(b)
  {
    NoDupMultiset(a);
    NoDupMultiset(b);
  }

  /** The inner loop: every successor of an emitted node loses one from its counter. */
  method ReleaseAll(d: Dag, indeg0: map<Id, int>, out: seq<Id>, ready0: seq<Id>, owed: seq<Id>)
    returns (indeg: map<Id, int>, ready: seq<Id>)
    requires d.Valid() && forall x :: x in owed ==> x in d.Ids()
    requires InDegreesExact(d, indeg0, out, owed) && QueueExact(d, indeg0, out, ready0)
    ensures InDegreesExact(d, indeg, out, []) && QueueExact(d, indeg, out, ready)
  {
    indeg, ready := indeg0, ready0;
    var rest := owed;
    while |rest| > 0
      invariant forall x :: x in rest ==> x in d.Ids()
      invariant InDegreesExact(d, indeg, out, rest) && QueueExact(d, indeg, out, ready)
      decreases |rest|
    {
      Released(d, indeg, out, ready, rest);
      var next := rest[0];
      indeg := indeg[next := indeg[next] - 1];
      if indeg[next] == 0 {
        ready := InsertSorted(ready, next);
      }
      rest := rest[1..];
    }
  }

  lemma OwedAreNodes(d: Dag, adj: map<Id, seq<Id>>, h: Id)
    requires d.Valid() && Lists(d, adj)
    ensures forall x :: x in Entry(adj, h) ==> x in d.Ids()
  {
    SuccessorsExact(d, h);
    forall x | x in Entry(adj, h) ensures x in d.Ids() {
      assert x in multiset(Entry(adj, h));
      assert x in Successors(d.edges, h);
    }
  }

  /** Popping the head of the queue emits the least available node. */
  lemma PopHead(d: Dag, indeg: map<Id, int>, out: seq<Id>, ready: seq<Id>, owed: seq<Id>)
    requires InDegreesExact(d, indeg, out, []) && QueueExact(d, indeg, out, ready)
    requires TopoPrefix(d, out) && LeastFirst(d, out) && |ready| > 0
    requires multiset(owed) == multiset(Successors(d.edges, ready[0]))
    ensures InDegreesExact(d, indeg, out + [ready[0]], owed) && QueueExact(d, indeg, out + [ready[0]], ready[1..])
    ensures TopoPrefix(d, out + [ready[0]]) && LeastFirst(d, out + [ready[0]])
    ensures |out| < |d.Ids()|
  {
    var head := ready[0];
    AvailableIsQueued(d, indeg, out, ready);
    assert head in ready;
    forall n | Available(d, out, n) ensures !Less(n, head) {
      LessIrreflexive(head);
    }
    EmitNext(d, out, head);
    Emitted(d, indeg, out, head, owed);
    HeadMoved(d, indeg, out, ready);
    NoDupFits(out + [head], d.Ids());
  }

  /** Moving the head of the queue to the emitted nodes leaves the queue exact. */
  lemma HeadMoved(d: Dag, indeg: map<Id, int>, out: seq<Id>, ready: seq<Id>)
    requires d.Ids() <= indeg.Keys && QueueExact(d, indeg, out, ready) && |ready| > 0
    ensures QueueExact(d, indeg, out + [ready[0]], ready[1..])
    ensures ready[0] !in out
  {
    assert out + ready == (out + [ready[0]]) + ready[1..];
    assert ready == [ready[0]] + ready[1..];
    assert (out + ready)[|out|] == ready[0];
    assert forall i :: 0 <= i < |out| ==> (out + ready)[i] == out[i];
  }

  /** Kahn's loop: pop the least ready id, emit it, release its successors. */
  method Kahn(d: Dag) returns (out: seq<Id>)
    requires d.Valid()
    ensures KahnOrder(d, out) && LeastFirst(d, out)
  {
    var indeg := InDegrees(d);
    var table := Adjacency(d);
    var adj := SortTable(d, table);
    var ready := InitialQueue(d, indeg);
    out := [];
    while |ready| > 0
      invariant InDegreesExact(d, indeg, out, []) && QueueExact(d, indeg, out, ready)
      invariant TopoPrefix(d, out) && LeastFirst(d, out)
      decreases |d.Ids()| - |out|
    {
      var head := ready[0];
      PopHead(d, indeg, out, ready, Entry(adj, head));
      OwedAreNodes(d, adj, head);
      out := out + [head];
      indeg, ready := ReleaseAll(d, indeg, out, ready[1..], Entry(adj, head));
    }
    AvailableIsQueued(d, indeg, out, ready);
    forall n | n in d.Ids() && n !in out ensures Waits(d, out, n) {
      assert !Available(d, out, n);
    }
  }

  method Sort(d: Dag) returns (r: Result<seq<Id>, SortError>)
    ensures r.Err? && r.error.Invalid? <==> !d.Valid()
    ensures d.Valid() ==> (r.Ok? <==> Acyclic(d))
    ensures r.Ok? ==> TopoOrder(d, r.value) && LeastFirst(d, r.value)
    ensures r.Ok? ==> forall p :: TopoOrder(d, p) ==> LexBelow(r.value, p)
    ensures r.Err? && r.error.Cycle? ==> r.error.sorted < r.error.total == |d.nodes|
  {
    var defect := Validate(d);
    if defect.Some? {
      return Err(Invalid(defect.value));
    }
    var out := Kahn(d);
    CompleteIffAcyclic(d, out);
    if |out| != |d.nodes| {
      NoDupFits(out, d.Ids());
      IdCount(d);
      return Err(Cycle(|out|, |d.nodes|));
    }
    forall p | TopoOrder(d, p) ensures LexBelow(out, p) {
      GreedyIsLeast(d, out, p);
    }
    r := Ok(out);
  }

  /** Only the node ids and the edge pairs matter, so permuting the node or edge lists changes nothing. */
  lemma SortIgnoresListOrder(d1: Dag, d2: Dag, o1: seq<Id>, o2: seq<Id>)
    requires d1.Ids() == d2.Ids()
    requires forall a, b :: d1.HasEdge(a, b) <==> d2.HasEdge(a, b)
    requires TopoOrder(d1, o1) && (forall p :: TopoOrder(d1, p) ==> LexBelow(o1, p))
    requires TopoOrder(d2, o2) && (forall p :: TopoOrder(d2, p) ==> LexBelow(o2, p))
    ensures o1 == o2
  {
    assert TopoOrder(d1, o2) && TopoOrder(d2, o1);
    LexBelowAntisymmetric(o1, o2);
  }

  lemma LexBelowAntisymmetric(a: seq<Id>, b: seq<Id>)
    requires LexBelow(a, b) && LexBelow(b, a)
    ensures a == b
  {
    if a != b {
      var k :| 0 <= k < |a| && k < |b| && a[..k] == b[..k] && Less(a[k], b[k]);
      var j :| 0 <= j < |b| && j < |a| && b[..j] == a[..j] && Less(b[j], a[j]);
      forall i | 0 <= i < k ensures a[i] == b[i] {
        assert a[..k][i] == b[..k][i];
      }
      forall i | 0 <= i < j ensures a[i] == b[i] {
        assert b[..j][i] == a[..j][i];
      }
      LessIrreflexive(a[k]);
      LessIrreflexive(b[j]);
      LessAsymmetric(a[k], b[k]);
    }
  }
}
