/**
 What a finished run has recorded: exactly once per node, exactly the cascaded skips, and, without
 cancellation, exactly what evaluating the nodes one at a time records.
 */
module Confluence {
  import opened Ordering
  import opened Graph
  import opened TopoSort
  import opened Engine
  import opened EngineInvariant
  import opened EngineSteps

  // --- evaluation one node at a time --------------------------------------------------------

  /** A result that keeps the nodes below from running. */
  predicate Blocks(r: NodeResult)
  {
    r.status == Failed || r.reason == UpstreamFailed
  }

  predicate Blocked(d: Dag, results: map<Id, NodeResult>, n: Id)
  {
    exists p :: p in Predecessors(d.edges, n) && p in results && Blocks(results[p])
  }

  function PayloadsOf(results: map<Id, NodeResult>): map<Id, Payload>
  {
    map n | n in results && results[n].payload.Some? :: results[n].payload.value
  }

  /** A node looks at its direct predecessors only: blocked by one of them, or run on their payloads. */
  function Local(c: Config, results: map<Id, NodeResult>, n: Id): NodeResult
  {
    if Blocked(c.dag, results, n) then SkippedFor(n, UpstreamFailed)
    else NodeOutcome(c, PayloadsOf(results), n)
  }

  /** The nodes evaluated in list order, with no cascade, no counters and no concurrency. */
  function Sequential(c: Config, o: seq<Id>): (r: map<Id, NodeResult>)
    ensures r.Keys == Elems(o)
  {
    if o == [] then map[]
    else
      var before := Sequential(c, o[..|o| - 1]);
      var n := o[|o| - 1];
      assert Elems(o) == Elems(o[..|o| - 1]) + {n} by {
        assert o == o[..|o| - 1] + [n];
      }
      before[n := Local(c, before, n)]
  }

  /** Evaluating further nodes does not change earlier ones. */
  lemma {:induction false} SequentialStable(c: Config, o: seq<Id>, k: nat, x: Id)
    requires NoDup(o) && k <= |o| && x in o[..k]
    ensures x in Sequential(c, o[..k]) && x in Sequential(c, o) && Sequential(c, o)[x] == Sequential(c, o[..k])[x]
    decreases |o|
  {
    if k < |o| {
      var q := o[..|o| - 1];
      assert q[..k] == o[..k];
      SequentialStable(c, q, k, x);
      var j :| 0 <= j < k && o[j] == x;
      assert o[|o| - 1] != x;
    } else {
      assert o[..k] == o;
    }
  }

  /** Each node is evaluated over the results of the nodes before it. */
  lemma SequentialAt(c: Config, o: seq<Id>, k: nat)
    requires NoDup(o) && k < |o|
    ensures o[k] in Sequential(c, o)
    ensures Sequential(c, o)[o[k]] == Local(c, Sequential(c, o[..k]), o[k])
  {
    var p := o[..k + 1];
    assert p[..|p| - 1] == o[..k] && p[|p| - 1] == o[k] && o[k] in p;
    SequentialStable(c, o, k + 1, o[k]);
  }

  /** Two result maps that agree on a node's predecessors give it the same result. */
  lemma LocalAgrees(c1: Config, c2: Config, r1: map<Id, NodeResult>, r2: map<Id, NodeResult>, n: Id)
    requires c1.body == c2.body && Definition(c1.dag, n) == Definition(c2.dag, n)
    requires Predecessors(c1.dag.edges, n) == Predecessors(c2.dag.edges, n)
    requires forall p :: p in Predecessors(c1.dag.edges, n) ==> p in r1 && p in r2 && r1[p] == r2[p]
    ensures Local(c1, r1, n) == Local(c2, r2, n)
  {
    var m1 := map p | p in Predecessors(c1.dag.edges, n) && p in PayloadsOf(r1) :: FromNode(PayloadsOf(r1)[p]);
    var m2 := map p | p in Predecessors(c2.dag.edges, n) && p in PayloadsOf(r2) :: FromNode(PayloadsOf(r2)[p]);
    assert m1 == m2;
    assert InputsFor(c1.dag, PayloadsOf(r1), n) == InputsFor(c2.dag, PayloadsOf(r2), n);
  }

  // --- finished runs ----------------------------------------------------------------------

  /** A state in which the main loop has ended, the start not having been cancelled. */
  ghost predicate Ended(c: Config, s: State)
  {
    c.dag.Valid() && Inv(c, s) && !s.pc.Aborted? && Exited(s)
  }

  lemma {:induction false} CountZero(ws: seq<Worker>, p: Phase -> bool)
    requires Count(ws, p) == 0
    ensures forall i :: 0 <= i < |ws| ==> !p(ws[i].phase)
  {
    if ws != [] {
      CountZero(ws[..|ws| - 1], p);
      assert forall i :: 0 <= i < |ws| - 1 ==> ws[i] == ws[..|ws| - 1][i];
    }
  }

  /** At the end every dispatched node has reported. */
  lemma AllReported(c: Config, core: Core, ws: seq<Worker>)
    requires Workers(c, core, ws) && core.inFlight == 0 && forall i :: 0 <= i < |ws| ==> !Handed(ws[i].phase)
    ensures forall n :: n in Nodes(ws) ==> n in core.results
  {
    CountZero(ws, InFlight);
    forall n | n in Nodes(ws) ensures n in core.results {
      var i :| 0 <= i < |ws| && Nodes(ws)[i] == n;
      assert !Unrecorded(ws[i].phase);
    }
  }

  /** Hits, seen through direct predecessors: a node is hit exactly when a predecessor blocks it. */
  lemma HitIffBlocked(d: Dag, core: Core, pc: Pc, n: Id)
    requires Cascades(d, core, pc) && !pc.Cascading?
    ensures Hit(core, n) <==> Blocked(d, core.results, n)
  {
    PredecessorsExact(d, n);
    if Hit(core, n) {
      var f :| Spread(core, pc, f) && Reaches(d, f, n);
      var p := ReachesLast(d, f, n);
      if p != f {
        assert Hit(core, p);
      }
      assert p in Predecessors(d.edges, n) && p in core.results && Blocks(core.results[p]);
    }
    if Blocked(d, core.results, n) {
      var p :| p in Predecessors(d.edges, n) && p in core.results && Blocks(core.results[p]);
      EdgeReaches(d, p, n);
      if core.results[p].status == Failed {
        assert Spread(core, pc, p);
      } else {
        assert Hit(core, p);
        var f :| Spread(core, pc, f) && Reaches(d, f, p);
        ReachesTransitive(d, f, p, n);
      }
    }
  }

  /** No node is left out while all its predecessors are recorded. */
  lemma NothingForgotten(c: Config, s: State, n: Id)
    requires Ended(c, s) && n in c.dag.Ids()
    requires forall a :: c.dag.HasEdge(a, n) ==> a in s.core.results
    ensures n in s.core.results
  {
    AllReported(c, s.core, s.workers);
    HitIffBlocked(c.dag, s.core, s.pc, n);
    if !Blocked(c.dag, s.core.results, n) {
      PredecessorsExact(c.dag, n);
      forall e | e in c.dag.edges && e.target == n ensures e.source in Reported(s.core) {
        assert c.dag.HasEdge(e.source, n);
        assert e.source in Predecessors(c.dag.edges, n);
      }
      UnmetZero(c.dag.edges, Reported(s.core), n);
      assert multiset(Owed(c.dag, s.pc))[n] == 0;
      assert s.core.pending[n] == 0;
    }
  }

  /** Every record of an uncancelled run is the local result over the final records. */
  lemma LocalEquation(c: Config, s: State, n: Id)
    requires Ended(c, s) && !s.cancelled && n in s.core.results
    ensures s.core.results[n] == Local(c, s.core.results, n)
  {
    HitIffBlocked(c.dag, s.core, s.pc, n);
    SamePayloads(c.dag, s.core);
    if !Hit(s.core, n) {
      assert Reportable(c, s.core.payloads, false, n, s.core.results[n]);
    } else {
      assert WellFormed(n, s.core.results[n]);
    }
  }

  lemma SamePayloads(d: Dag, core: Core)
    requires Records(d, core)
    ensures PayloadsOf(core.results) == core.payloads
  {
  }

  /** Every node that Kahn's loop emits is recorded. */
  lemma {:induction false} EmittedRecorded(c: Config, s: State, o: seq<Id>, k: nat)
    requires Ended(c, s) && TopoPrefix(c.dag, o) && k < |o|
    ensures o[k] in s.core.results
    decreases k
  {
    forall a | c.dag.HasEdge(a, o[k]) ensures a in s.core.results {
      var j :| 0 <= j < k && o[j] == a;
      EmittedRecorded(c, s, o, j);
    }
    NothingForgotten(c, s, o[k]);
  }

  /** A record outside Kahn's order was hit by a cascade. */
  lemma RecordedEmittedOrHit(c: Config, s: State, o: seq<Id>, n: Id)
    requires Ended(c, s) && KahnOrder(c.dag, o) && n in s.core.results && n !in o
    ensures Hit(s.core, n)
  {
    PrefixInStuck(c.dag, Nodes(s.workers), o);
    assert !Hit(s.core, n) ==> n in Reported(s.core);
  }

  // --- the theorems -----------------------------------------------------------------------

  /** A run reached by some interleaving, not cancelled before the start, with its loop ended. */
  ghost predicate FinishedRun(c: Config, acts: seq<Action>)
    requires c.dag.Valid()
  {
    Exited(After(c, false, acts))
  }

  lemma RunFinished(c: Config, acts: seq<Action>)
    requires c.dag.Valid() && FinishedRun(c, acts)
    ensures Ended(c, After(c, false, acts))
  {
    Always(c, false, acts);
    NeverAborted(c, acts);
  }

  lemma {:induction false} NeverAborted(c: Config, acts: seq<Action>)
    requires c.dag.Valid()
    ensures !After(c, false, acts).pc.Aborted?
  {
    if acts != [] {
      NeverAborted(c, acts[..|acts| - 1]);
    }
  }

  ghost predicate BelowFailure(d: Dag, results: map<Id, NodeResult>, n: Id)
  {
    exists f :: FailedAt(results, f) && Reaches(d, f, n)
  }

  lemma HitIffBelowFailure(d: Dag, core: Core, pc: Pc, n: Id)
    requires Cascades(d, core, pc) && !pc.Cascading?
    ensures Hit(core, n) <==> BelowFailure(d, core.results, n)
  {
    assert forall f :: Spread(core, pc, f) <==> FailedAt(core.results, f);
  }

  lemma RecordedExactly(c: Config, s: State, o: seq<Id>, n: Id)
    requires Ended(c, s) && KahnOrder(c.dag, o)
    ensures n in s.core.results <==> n in o || BelowFailure(c.dag, s.core.results, n)
  {
    HitIffBelowFailure(c.dag, s.core, s.pc, n);
    if n in o {
      var k :| 0 <= k < |o| && o[k] == n;
      EmittedRecorded(c, s, o, k);
    } else if n in s.core.results {
      RecordedEmittedOrHit(c, s, o, n);
    }
  }

  /**
   Exactly once: in every run, cancelled or not, no node is dispatched twice, and when the loop ends
   the recorded nodes are those Kahn's loop emits together with the descendants of failed nodes.
   */
  lemma ExactlyOnce(c: Config, acts: seq<Action>, o: seq<Id>)
    requires c.dag.Valid() && FinishedRun(c, acts) && KahnOrder(c.dag, o)
    ensures NoDup(Nodes(After(c, false, acts).workers))
    ensures
      var results := After(c, false, acts).core.results;
      forall n :: n in results <==> n in o || BelowFailure(c.dag, results, n)
  {
    RunFinished(c, acts);
    forall n {
      RecordedExactly(c, After(c, false, acts), o, n);
    }
  }

  /** On an acyclic graph every node gets a result, cancelled or not. */
  lemma AcyclicCoverage(c: Config, acts: seq<Action>, o: seq<Id>)
    requires c.dag.Valid() && FinishedRun(c, acts) && TopoOrder(c.dag, o)
    ensures After(c, false, acts).core.results.Keys == c.dag.Ids()
  {
    var s := After(c, false, acts);
    RunFinished(c, acts);
    forall n | n in c.dag.Ids() ensures n in s.core.results {
      var k :| 0 <= k < |o| && o[k] == n;
      EmittedRecorded(c, s, o, k);
    }
  }

  /** The records of an uncancelled run agree with the sequential evaluation along any Kahn order. */
  lemma {:induction false} AgreesWithSequential(c: Config, s: State, o: seq<Id>, k: nat)
    requires Ended(c, s) && !s.cancelled && TopoPrefix(c.dag, o) && k < |o|
    ensures o[k] in s.core.results && s.core.results[o[k]] == Sequential(c, o)[o[k]]
    decreases k
  {
    EmittedRecorded(c, s, o, k);
    LocalEquation(c, s, o[k]);
    SequentialAt(c, o, k);
    PredecessorsExact(c.dag, o[k]);
    forall p | p in Predecessors(c.dag.edges, o[k])
      ensures p in s.core.results && p in Sequential(c, o[..k]) && s.core.results[p] == Sequential(c, o[..k])[p]
    {
      assert p in o[..k];
      var j :| 0 <= j < k && o[j] == p;
      AgreesWithSequential(c, s, o, j);
      SequentialStable(c, o, k, p);
    }
    LocalAgrees(c, c, s.core.results, Sequential(c, o[..k]), o[k]);
  }

  /**
   Confluence: on an acyclic graph every uncancelled run, whatever the interleaving and the
   concurrency limit, ends with the records of the evaluation in topological order.
   */
  lemma RunsAgreeWithSequential(c: Config, acts: seq<Action>, o: seq<Id>)
    requires c.dag.Valid() && FinishedRun(c, acts) && !After(c, false, acts).cancelled && TopoOrder(c.dag, o)
    ensures After(c, false, acts).core.results == Sequential(c, o)
  {
    RunFinished(c, acts);
    AcyclicCoverage(c, acts, o);
    IncludedInSequential(c, After(c, false, acts), o);
    SameKeys(After(c, false, acts).core.results, Sequential(c, o));
  }

  ghost predicate Included(r1: map<Id, NodeResult>, r2: map<Id, NodeResult>)
  {
    forall n :: n in r1 ==> n in r2 && r1[n] == r2[n]
  }

  lemma SameKeys(r1: map<Id, NodeResult>, r2: map<Id, NodeResult>)
    requires Included(r1, r2) && r1.Keys == r2.Keys
    ensures r1 == r2
  {
  }

  lemma IncludedInSequential(c: Config, s: State, o: seq<Id>)
    requires Ended(c, s) && !s.cancelled && TopoOrder(c.dag, o)
    ensures Included(s.core.results, Sequential(c, o)) && Sequential(c, o).Keys == c.dag.Ids()
  {
    assert Elems(o) == c.dag.Ids();
    forall n | n in s.core.results ensures n in Sequential(c, o) && s.core.results[n] == Sequential(c, o)[n] {
      SameAtNode(c, s, o, n);
    }
  }

  lemma SameAtNode(c: Config, s: State, o: seq<Id>, n: Id)
    requires Ended(c, s) && !s.cancelled && TopoOrder(c.dag, o) && n in s.core.results
    ensures n in Sequential(c, o) && s.core.results[n] == Sequential(c, o)[n]
  {
    var k :| 0 <= k < |o| && o[k] == n;
    AgreesWithSequential(c, s, o, k);
  }

  /** A Kahn order exists for every graph. */
  lemma KahnOrderFrom(d: Dag, p: seq<Id>) returns (o: seq<Id>)
    requires TopoPrefix(d, p)
    ensures KahnOrder(d, o)
    decreases |d.Ids()| - |p|
  {
    if n :| n in d.Ids() && n !in p && !Waits(d, p, n) {
      TopoPrefixAppend(d, p, n);
      NoDupFits(p + [n], d.Ids());
      o := KahnOrderFrom(d, p + [n]);
    } else {
      o := p;
    }
  }

  /** Two finished runs record the same along a Kahn order. */
  lemma EmittedAgree(c1: Config, s1: State, c2: Config, s2: State, o: seq<Id>, n: Id)
    requires Ended(c1, s1) && !s1.cancelled && Ended(c2, s2) && !s2.cancelled
    requires c1.dag == c2.dag && c1.body == c2.body && KahnOrder(c1.dag, o) && n in o
    ensures n in s1.core.results && n in s2.core.results && s1.core.results[n] == s2.core.results[n]
  {
    var k :| 0 <= k < |o| && o[k] == n;
    AgreesWithSequential(c1, s1, o, k);
    AgreesWithSequential(c2, s2, o, k);
    SequentialSameBody(c1, c2, o);
  }

  lemma {:induction false} SequentialSameBody(c1: Config, c2: Config, o: seq<Id>)
    requires c1.dag == c2.dag && c1.body == c2.body
    ensures Sequential(c1, o) == Sequential(c2, o)
  {
    if o != [] {
      SequentialSameBody(c1, c2, o[..|o| - 1]);
    }
  }

  /** A failed record is never a hit, so it lies in the Kahn order. */
  lemma FailureEmitted(c: Config, s: State, o: seq<Id>, f: Id)
    requires Ended(c, s) && KahnOrder(c.dag, o) && FailedAt(s.core.results, f)
    ensures f in o
  {
    assert WellFormed(f, s.core.results[f]);
    if f !in o {
      RecordedEmittedOrHit(c, s, o, f);
    }
  }

  lemma HitRecord(c: Config, s: State, n: Id)
    requires Ended(c, s) && BelowFailure(c.dag, s.core.results, n)
    ensures n in s.core.results && s.core.results[n] == SkippedFor(n, UpstreamFailed)
  {
    HitIffBelowFailure(c.dag, s.core, s.pc, n);
    HitShape(c.dag, s.core, n);
  }

  lemma HitShape(d: Dag, core: Core, n: Id)
    requires Records(d, core) && Hit(core, n)
    ensures core.results[n] == SkippedFor(n, UpstreamFailed)
  {
    assert WellFormed(n, core.results[n]);
  }

  /** Whatever one finished run records, another records too. */
  lemma RecordsIncluded(c1: Config, s1: State, c2: Config, s2: State, o: seq<Id>, n: Id)
    requires Ended(c1, s1) && !s1.cancelled && Ended(c2, s2) && !s2.cancelled
    requires c1.dag == c2.dag && c1.body == c2.body && KahnOrder(c1.dag, o) && n in s1.core.results
    ensures n in s2.core.results && s1.core.results[n] == s2.core.results[n]
  {
    if n in o {
      EmittedAgree(c1, s1, c2, s2, o, n);
    } else {
      RecordedExactly(c1, s1, o, n);
      var f :| FailedAt(s1.core.results, f) && Reaches(c1.dag, f, n);
      FailureEmitted(c1, s1, o, f);
      EmittedAgree(c1, s1, c2, s2, o, f);
      HitRecord(c1, s1, n);
      HitRecord(c2, s2, n);
    }
  }

  lemma SameMap(r1: map<Id, NodeResult>, r2: map<Id, NodeResult>)
    requires Included(r1, r2) && Included(r2, r1)
    ensures r1 == r2
  {
  }

  lemma ResultsIncluded(c1: Config, s1: State, c2: Config, s2: State, o: seq<Id>)
    requires Ended(c1, s1) && !s1.cancelled && Ended(c2, s2) && !s2.cancelled
    requires c1.dag == c2.dag && c1.body == c2.body && KahnOrder(c1.dag, o)
    ensures Included(s1.core.results, s2.core.results)
  {
    forall n | n in s1.core.results ensures n in s2.core.results && s1.core.results[n] == s2.core.results[n] {
      RecordsIncluded(c1, s1, c2, s2, o, n);
    }
  }

  /**
   Determinism on every valid graph, cyclic ones included: any two uncancelled runs, under any two
   interleavings and concurrency limits, end with the same records.
   */
  lemma RunsAgree(c1: Config, acts1: seq<Action>, c2: Config, acts2: seq<Action>)
    requires c1.dag == c2.dag && c1.body == c2.body && c1.dag.Valid()
    requires FinishedRun(c1, acts1) && !After(c1, false, acts1).cancelled
    requires FinishedRun(c2, acts2) && !After(c2, false, acts2).cancelled
    ensures After(c1, false, acts1).core.results == After(c2, false, acts2).core.results
  {
    var s1, s2 := After(c1, false, acts1), After(c2, false, acts2);
    RunFinished(c1, acts1);
    RunFinished(c2, acts2);
    var o := KahnOrderFrom(c1.dag, []);
    ResultsIncluded(c1, s1, c2, s2, o);
    ResultsIncluded(c2, s2, c1, s1, o);
    SameMap(s1.core.results, s2.core.results);
  }
}
