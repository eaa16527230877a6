/** Every action of the engine keeps the invariant, so it holds after every run. */
module EngineSteps {
  import opened Wrappers
  import opened Ordering
  import opened JsonTree
  import opened Graph
  import opened TopoSort
  import opened Closure
  import opened Engine
  import opened EngineInvariant

  // --- the start --------------------------------------------------------------------------

  lemma {:induction false} RootsExact(d: Dag, nodes: seq<Node>)
    requires forall i, j :: 0 <= i < j < |nodes| ==> nodes[i].id != nodes[j].id
    ensures NoDup(Roots(d, nodes))
    ensures forall n :: n in Roots(d, nodes) <==>
      Predecessors(d.edges, n) == [] && exists i :: 0 <= i < |nodes| && nodes[i].id == n
  {
    if nodes != [] {
      var q, l := nodes[..|nodes| - 1], nodes[|nodes| - 1];
      RootsExact(d, q);
      assert forall i :: 0 <= i < |q| ==> q[i] == nodes[i];
      assert l.id !in Roots(d, q);
    }
  }

  const TWO_ROOTS :=
    Dag([Node("b", "t", "", NoBytes, None), Node("a", "t", "", NoBytes, None)], [])

  /** The roots come in list order, which need not be sorted. */
  lemma RootsUnsorted()
    ensures TWO_ROOTS.Valid() && Roots(TWO_ROOTS, TWO_ROOTS.nodes) == ["b", "a"] && !Sorted(["b", "a"])
  {
    assert TWO_ROOTS.nodes[..1] == [TWO_ROOTS.nodes[0]];
    assert TWO_ROOTS.nodes[..1][..0] == [];
    assert TWO_ROOTS.nodes[0] in TWO_ROOTS.nodes;
    assert "a"[0] < "b"[0];
    assert Less("a", "b");
    assert ["b", "a"][0] == "b" && ["b", "a"][1] == "a";
  }

  lemma {:induction false} SortedIdsExact(s: seq<Id>)
    ensures Sorted(SortedIds(s)) && multiset(SortedIds(s)) == multiset(s)
  {
    if s != [] {
      var q, l := s[..|s| - 1], s[|s| - 1];
      SortedIdsExact(q);
      InsertedSorted(SortedIds(q), l);
      InsertedMultiset(SortedIds(q), l);
      assert s == q + [l];
    }
  }

  lemma InsertedMultiset(s: seq<Id>, v: Id)
    ensures multiset(Inserted(s, v)) == multiset(s) + multiset{v}
  {
    var k := LowerBound(s, v);
    assert s == s[..k] + s[k..];
  }

  lemma InitialReadyExact(d: Dag)
    requires d.Valid()
    ensures NoDup(InitialReady(d)) && Sorted(InitialReady(d))
    ensures forall n :: n in InitialReady(d) <==> n in d.Ids() && Predecessors(d.edges, n) == []
  {
    var roots := Roots(d, d.nodes);
    RootsExact(d, d.nodes);
    SortedIdsExact(roots);
    NoDupByMultiset(roots, InitialReady(d));
    forall n ensures n in InitialReady(d) <==> n in d.Ids() && Predecessors(d.edges, n) == [] {
      assert n in InitialReady(d) <==> n in multiset(InitialReady(d));
      assert n in roots <==> n in multiset(roots);
      NodeIndex(d, n);
    }
  }

  lemma NodeIndex(d: Dag, n: Id)
    ensures n in d.Ids() <==> exists i :: 0 <= i < |d.nodes| && d.nodes[i].id == n
  {
    if n in d.Ids() {
      var m :| m in d.nodes && m.id == n;
      var i :| 0 <= i < |d.nodes| && d.nodes[i] == m;
    }
    if i :| 0 <= i < |d.nodes| && d.nodes[i].id == n {
      assert d.nodes[i] in d.nodes;
    }
  }

  lemma InitCounters(d: Dag)
    requires d.Valid()
    ensures Counters(d, InitialCore(d), []) && Queue(d, InitialCore(d), [])
  {
    var core := InitialCore(d);
    InitialReadyExact(d);
    assert Reported(core) == {};
    assert [] + core.ready == core.ready;
    forall n | n in d.Ids()
      ensures core.pending[n] == Unmet(d.edges, {}, n) + multiset([])[n] && (core.pending[n] == 0 <==> n in core.ready)
    {
      UnmetAll(d.edges, n);
    }
  }

  lemma InitSound(c: Config)
    requires c.dag.Valid()
    ensures Sound(c, InitialCore(c.dag), [], false, [])
  {
    InitCounters(c.dag);
    assert Nodes([]) == [];
  }

  lemma InitFlow(d: Dag)
    requires d.Valid()
    ensures Cascades(d, InitialCore(d), Draining)
  {
    assert forall f :: !FailedAt(InitialCore(d).results, f);
  }

  lemma InitInv(c: Config, cancelled: bool)
    requires c.dag.Valid()
    ensures Inv(c, Init(c, cancelled))
  {
    InitSound(c);
    InitFlow(c.dag);
  }

  // --- worker actions ---------------------------------------------------------------------

  lemma MovedSound(c: Config, core: Core, ws: seq<Worker>, cancelled: bool, owed: seq<Id>, i: nat, p: Phase)
    requires Sound(c, core, ws, cancelled, owed) && i < |ws|
    requires InFlight(p) == InFlight(ws[i].phase) && Handed(p) == Handed(ws[i].phase)
    requires HoldsSlot(p) ==> HoldsSlot(ws[i].phase) || Count(ws, HoldsSlot) < Limit(c)
    requires WorkerValue(c, core.payloads, cancelled, Worker(ws[i].node, p))
    ensures Sound(c, core, ws[i := ws[i].(phase := p)], cancelled, owed)
  {
    assert Nodes(ws[i := ws[i].(phase := p)]) == Nodes(ws);
    MovedWorkers(c, core, ws, i, p);
    MovedValues(c, core, ws, cancelled, i, p);
  }

  lemma MovedWorkers(c: Config, core: Core, ws: seq<Worker>, i: nat, p: Phase)
    requires Workers(c, core, ws) && i < |ws|
    requires InFlight(p) == InFlight(ws[i].phase) && Handed(p) == Handed(ws[i].phase)
    requires HoldsSlot(p) ==> HoldsSlot(ws[i].phase) || Count(ws, HoldsSlot) < Limit(c)
    ensures Workers(c, core, ws[i := ws[i].(phase := p)])
  {
    var ws' := ws[i := ws[i].(phase := p)];
    assert Nodes(ws') == Nodes(ws);
    CountUpdate(ws, i, ws[i].(phase := p), InFlight);
    CountUpdate(ws, i, ws[i].(phase := p), HoldsSlot);
  }

  lemma MovedValues(c: Config, core: Core, ws: seq<Worker>, cancelled: bool, i: nat, p: Phase)
    requires Values(c, core, ws, cancelled) && i < |ws|
    requires WorkerValue(c, core.payloads, cancelled, Worker(ws[i].node, p))
    ensures Values(c, core, ws[i := ws[i].(phase := p)], cancelled)
  {
  }

  /** An in-flight worker never finds its own node completed. */
  lemma NotYetCompleted(c: Config, s: State, i: nat)
    requires Inv(c, s) && !s.pc.Aborted? && i < |s.workers| && Unrecorded(s.workers[i].phase)
    ensures s.workers[i].node !in s.core.completed
  {
  }

  lemma CancelValues(c: Config, core: Core, ws: seq<Worker>)
    requires Values(c, core, ws, false)
    ensures Values(c, core, ws, true)
  {
    forall i | 0 <= i < |ws| ensures WorkerValue(c, core.payloads, true, ws[i]) {
      assert WorkerValue(c, core.payloads, false, ws[i]);
    }
    forall n | n in core.results && !Hit(core, n) ensures Reportable(c, core.payloads, true, n, core.results[n]) {
      assert Reportable(c, core.payloads, false, n, core.results[n]);
    }
  }

  /** The phases that acquiring, checking, building, finishing and releasing lead to. */
  predicate NextPhase(c: Config, core: Core, ws: seq<Worker>, cancelled: bool, w: Worker, o: Outcome, p: Phase)
  {
    match w.phase
    case Waiting => p == Holding && Count(ws, HoldsSlot) < Limit(c)
    case Holding => p == if cancelled then Finished(SkippedFor(w.node, Cancelled)) else Checked
    case Checked => p == Running(InputsFor(c.dag, core.payloads, w.node))
    case Running(inputs) =>
      && (cancelled || o == Run(c, w.node, inputs))
      && p == Finished(if cancelled then ClassifyCancelled(w.node, o) else Classify(w.node, o))
    case Delivered(res) => p == Left(res)
    case Releasing => p == Gone
    case _ => false
  }

  /** A worker's own action keeps what holds of the variables and the workers. */
  lemma OwnStep(c: Config, core: Core, ws: seq<Worker>, cancelled: bool, owed: seq<Id>, i: nat, o: Outcome, p: Phase)
    requires Sound(c, core, ws, cancelled, owed) && i < |ws| && NextPhase(c, core, ws, cancelled, ws[i], o, p)
    ensures Sound(c, core, ws[i := ws[i].(phase := p)], cancelled, owed)
  {
    NextValue(c, core, ws, cancelled, ws[i], o, p);
    MovedSound(c, core, ws, cancelled, owed, i, p);
  }

  lemma NextValue(c: Config, core: Core, ws: seq<Worker>, cancelled: bool, w: Worker, o: Outcome, p: Phase)
    requires WorkerValue(c, core.payloads, cancelled, w) && NextPhase(c, core, ws, cancelled, w, o, p)
    ensures WorkerValue(c, core.payloads, cancelled, Worker(w.node, p))
  {
  }

  lemma CancelSound(c: Config, core: Core, ws: seq<Worker>, owed: seq<Id>)
    requires Sound(c, core, ws, false, owed)
    ensures Sound(c, core, ws, true, owed)
  {
    CancelValues(c, core, ws);
  }

  // --- dispatch ---  // --- dispatch ---------------------------------------------------------------------------

  lemma TopoPrefixAppend(d: Dag, o: seq<Id>, n: Id)
    requires TopoPrefix(d, o) && n in d.Ids() && n !in o
    requires forall a :: d.HasEdge(a, n) ==> a in o
    ensures TopoPrefix(d, o + [n])
  {
    var q := o + [n];
    assert forall k :: 0 <= k <= |o| ==> q[..k] == o[..k];
    assert o[..|o|] == o;
  }

  lemma DrainWorkers(c: Config, core: Core, ws: seq<Worker>)
    requires Workers(c, core, ws) && Queue(c.dag, core, Nodes(ws)) && Counters(c.dag, core, []) && core.ready != []
    ensures
      Workers(c, core.(ready := core.ready[1..], inFlight := core.inFlight + 1), ws + [Worker(core.ready[0], Waiting)])
  {
    var n := core.ready[0];
    var w := Worker(n, Waiting);
    var core' := core.(ready := core.ready[1..], inFlight := core.inFlight + 1);
    assert Nodes(ws + [w]) == Nodes(ws) + [n];
    assert n in core.ready;
    ReadyDistinct(Nodes(ws), core.ready, n);
    PredecessorsReported(c.dag, core, Nodes(ws), [], n);
    TopoPrefixAppend(c.dag, Nodes(ws), n);
    CountAppend(ws, w, InFlight);
    CountAppend(ws, w, HoldsSlot);
    assert n !in Reported(core);
    assert Reported(core') == Reported(core);
  }

  lemma SameCascades(d: Dag, core: Core, pc: Pc, core': Core, pc': Pc)
    requires Cascades(d, core, pc)
    requires core'.results == core.results && !pc.Cascading? && !pc'.Cascading?
    ensures Cascades(d, core', pc')
  {
    assert forall n :: Hit(core', n) <==> Hit(core, n);
    assert forall f :: Spread(core', pc', f) <==> Spread(core, pc, f);
  }

  lemma SameRecords(d: Dag, core: Core, core': Core)
    requires Records(d, core)
    requires core' == core.(ready := core'.ready, pending := core'.pending, inFlight := core'.inFlight)
    ensures Records(d, core')
  {
  }

  lemma SameValues(c: Config, core: Core, core': Core, ws: seq<Worker>, cancelled: bool)
    requires Values(c, core, ws, cancelled)
    requires core'.results == core.results && core'.payloads == core.payloads
    ensures Values(c, core', ws, cancelled)
  {
    assert forall n :: Hit(core', n) <==> Hit(core, n);
  }

  lemma SameWorkers(c: Config, core: Core, core': Core, ws: seq<Worker>)
    requires Workers(c, core, ws) && core'.results == core.results && core'.inFlight == core.inFlight
    ensures Workers(c, core', ws)
  {
    assert Reported(core') == Reported(core);
  }

  lemma DrainValues(c: Config, core: Core, ws: seq<Worker>, cancelled: bool, n: Id)
    requires Values(c, core, ws, cancelled)
    ensures Values(c, core, ws + [Worker(n, Waiting)], cancelled)
  {
  }

  /** The core and the workers after dispatching the head of the queue. */
  ghost predicate Dispatched(core: Core, ws: seq<Worker>, core': Core, ws': seq<Worker>)
  {
    && core.ready != []
    && core' == core.(ready := core.ready[1..], inFlight := core.inFlight + 1)
    && ws' == ws + [Worker(core.ready[0], Waiting)]
  }

  lemma DrainOne(c: Config, core: Core, ws: seq<Worker>, cancelled: bool, core': Core, ws': seq<Worker>)
    requires Sound(c, core, ws, cancelled, []) && Dispatched(core, ws, core', ws')
    ensures Sound(c, core', ws', cancelled, [])
  {
    DrainWorkers(c, core, ws);
    DrainQueue(c.dag, core, Nodes(ws));
    DrainValues(c, core, ws, cancelled, core.ready[0]);
    SameValues(c, core, core', ws', cancelled);
    SameRecords(c.dag, core, core');
    SameCounters(c.dag, core, core', []);
    assert Nodes(ws') == Nodes(ws) + [core.ready[0]];
  }

  lemma SameCounters(d: Dag, core: Core, core': Core, owed: seq<Id>)
    requires Counters(d, core, owed) && core'.results == core.results && core'.pending == core.pending
    ensures Counters(d, core', owed)
  {
    assert Reported(core') == Reported(core);
  }

  /** Moving the head of the queue to the dispatched nodes leaves the queue facts alone. */
  lemma DrainQueue(d: Dag, core: Core, nodes: seq<Id>)
    requires Queue(d, core, nodes) && core.ready != []
    ensures Queue(d, core.(ready := core.ready[1..], inFlight := core.inFlight + 1), nodes + [core.ready[0]])
  {
    var n := core.ready[0];
    var core' := core.(ready := core.ready[1..], inFlight := core.inFlight + 1);
    assert nodes + core.ready == (nodes + [n]) + core.ready[1..];
    assert core.ready == [n] + core.ready[1..];
    assert forall x :: x in nodes + [n] || x in core'.ready <==> x in nodes || x in core.ready;
    assert forall x :: Hit(core', x) <==> Hit(core, x);
  }

  // --- receiving a result -----------------------------------------------------------------

  lemma TakenSound(c: Config, core: Core, ws: seq<Worker>, cancelled: bool, i: nat, res: NodeResult)
    requires Sound(c, core, ws, cancelled, []) && i < |ws| && ws[i].phase == Finished(res)
    ensures Sound(c, Taken(core), ws[i := ws[i].(phase := Delivered(res))], cancelled, [])
  {
    var ws' := ws[i := ws[i].(phase := Delivered(res))];
    assert WorkerValue(c, core.payloads, cancelled, ws[i]);
    TakenWorkers(c, core, ws, i, res);
    MovedValues(c, core, ws, cancelled, i, Delivered(res));
    SameValues(c, core, Taken(core), ws', cancelled);
    SameRecords(c.dag, core, Taken(core));
    SameCounters(c.dag, core, Taken(core), []);
    TakenQueue(c.dag, core, Nodes(ws));
    assert Nodes(ws') == Nodes(ws);
  }

  lemma TakenQueue(d: Dag, core: Core, nodes: seq<Id>)
    requires Queue(d, core, nodes)
    ensures Queue(d, Taken(core), nodes)
  {
    assert forall n :: Hit(Taken(core), n) <==> Hit(core, n);
  }

  lemma TakenWorkers(c: Config, core: Core, ws: seq<Worker>, i: nat, res: NodeResult)
    requires Workers(c, core, ws) && i < |ws| && ws[i].phase == Finished(res)
    ensures Workers(c, Taken(core), ws[i := ws[i].(phase := Delivered(res))])
  {
    var ws' := ws[i := ws[i].(phase := Delivered(res))];
    assert Nodes(ws') == Nodes(ws);
    assert Reported(Taken(core)) == Reported(core);
    CountUpdate(ws, i, ws[i].(phase := Delivered(res)), InFlight);
    CountUpdate(ws, i, ws[i].(phase := Delivered(res)), HoldsSlot);
  }

  // --- recording a result -----------------------------------------------------------------

  /** A freshly recorded node moves out of the unmet counts and becomes owed. */
  lemma FileCounters(d: Dag, core: Core, res: NodeResult)
    requires Counters(d, core, []) && res.id !in core.results && res.reason != UpstreamFailed
    ensures Counters(d, Filed(core, res), Successors(d.edges, res.id))
    ensures Reported(Filed(core, res)) == Reported(core) + {res.id}
  {
    var core' := Filed(core, res);
    assert Reported(core') == Reported(core) + {res.id};
    assert res.id !in Reported(core);
    forall n | n in d.Ids() && !Hit(core', n)
      ensures core'.pending[n] == Unmet(d.edges, Reported(core'), n) + multiset(Successors(d.edges, res.id))[n]
    {
      UnmetStep(d.edges, Reported(core), res.id, n);
      assert multiset([])[n] == 0;
    }
  }

  lemma FileShapes(d: Dag, core: Core, res: NodeResult)
    requires Shapes(d, core) && res.id in d.Ids() && WellFormed(res.id, res)
    ensures Shapes(d, Filed(core, res))
  {
  }

  lemma FilePayloads(core: Core, res: NodeResult)
    requires PayloadsRecorded(core) && res.id !in core.results
    ensures PayloadsRecorded(Filed(core, res))
  {
    var core' := Filed(core, res);
    assert res.id !in core.payloads;
    assert core'.results[res.id] == res;
    assert forall n :: n != res.id ==> (n in core'.results <==> n in core.results);
  }

  lemma FileError(core: Core, res: NodeResult)
    requires ErrorKept(core) && res.id !in core.results
    ensures ErrorKept(Filed(core, res))
  {
    var core' := Filed(core, res);
    assert core'.results[res.id] == res;
    assert forall n :: n != res.id ==> (FailedAt(core'.results, n) <==> FailedAt(core.results, n));
  }

  lemma FileRecords(d: Dag, core: Core, res: NodeResult)
    requires Records(d, core) && res.id !in core.results && res.id in d.Ids() && WellFormed(res.id, res)
    ensures Records(d, Filed(core, res))
  {
    FileShapes(d, core, res);
    FilePayloads(core, res);
    FileError(core, res);
  }

  lemma FileCascades(d: Dag, core: Core, was: Pc, res: NodeResult, pc: Pc)
    requires Cascades(d, core, was) && !was.Cascading? && res.id !in core.results && res.reason != UpstreamFailed
    requires if res.status == Failed then pc == Cascading(res.id) else pc == Enqueuing(Successors(d.edges, res.id))
    ensures Cascades(d, Filed(core, res), pc)
  {
    var core' := Filed(core, res);
    assert forall n :: Hit(core', n) <==> Hit(core, n);
    assert forall f :: Spread(core', pc, f) <==> Spread(core, was, f);
  }

  /** A new record leaves the inputs of every dispatched node as they were. */
  lemma FileInputs(d: Dag, core: Core, nodes: seq<Id>, res: NodeResult, n: Id)
    requires Counters(d, core, []) && Queue(d, core, nodes) && n in nodes && res.id !in core.results
    ensures InputsFor(d, core.payloads, n) == InputsFor(d, Filed(core, res).payloads, n)
  {
    PredecessorsReported(d, core, nodes, [], n);
    assert res.id !in Reported(core);
    InputsStable(d, core.payloads, Filed(core, res).payloads, n);
  }

  lemma FileValues(c: Config, core: Core, ws: seq<Worker>, cancelled: bool, i: nat, res: NodeResult, p: Phase)
    requires Counters(c.dag, core, []) && Queue(c.dag, core, Nodes(ws)) && Values(c, core, ws, cancelled)
    requires forall n :: n in Reported(core) ==> n in Nodes(ws)
    requires i < |ws| && Handed(ws[i].phase) && ws[i] == Worker(res.id, ws[i].phase) && ws[i].phase.result == res
    requires res.id !in core.results && (p.Releasing? || p.Gone?)
    ensures Values(c, Filed(core, res), ws[i := Worker(res.id, p)], cancelled)
  {
    var core' := Filed(core, res);
    forall n | n in Nodes(ws)
      ensures InputsFor(c.dag, core.payloads, n) == InputsFor(c.dag, core'.payloads, n)
    {
      FileInputs(c.dag, core, Nodes(ws), res, n);
    }
    assert WorkerValue(c, core.payloads, cancelled, ws[i]);
    assert Nodes(ws)[i] == res.id;
    WorkersKeepValues(c, core.payloads, core'.payloads, ws, cancelled, i, p);
    RecordsKeepValues(c, core, ws, cancelled, res, core');
  }

  /** Workers whose inputs do not change keep their values; the one received from carries none. */
  lemma WorkersKeepValues(c: Config, p: map<Id, Payload>, p': map<Id, Payload>, ws: seq<Worker>, cancelled: bool,
                          i: nat, q: Phase)
    requires i < |ws| && (q.Releasing? || q.Gone?) && forall j :: 0 <= j < |ws| ==> WorkerValue(c, p, cancelled, ws[j])
    requires forall n :: n in Nodes(ws) ==> InputsFor(c.dag, p, n) == InputsFor(c.dag, p', n)
    ensures
      var ws' := ws[i := ws[i].(phase := q)];
      forall j :: 0 <= j < |ws'| ==> WorkerValue(c, p', cancelled, ws'[j])
  {
    forall j | 0 <= j < |ws| && j != i ensures WorkerValue(c, p', cancelled, ws[j]) {
      assert WorkerValue(c, p, cancelled, ws[j]);
      assert Nodes(ws)[j] == ws[j].node;
    }
  }

  lemma RecordsKeepValues(c: Config, core: Core, ws: seq<Worker>, cancelled: bool, res: NodeResult, core': Core)
    requires core' == Filed(core, res) && res.id !in core.results
    requires forall n :: n in core.results && !Hit(core, n) ==>
      Reportable(c, core.payloads, cancelled, n, core.results[n])
    requires Reportable(c, core.payloads, cancelled, res.id, res) && res.id in Nodes(ws)
    requires forall n :: n in Reported(core) ==> n in Nodes(ws)
    requires forall n :: n in Nodes(ws) ==> InputsFor(c.dag, core.payloads, n) == InputsFor(c.dag, core'.payloads, n)
    ensures forall n :: n in core'.results && !Hit(core', n) ==>
      Reportable(c, core'.payloads, cancelled, n, core'.results[n])
  {
    forall n | n in core'.results && !Hit(core', n)
      ensures Reportable(c, core'.payloads, cancelled, n, core'.results[n])
    {
      if n != res.id {
        assert !Hit(core, n) && n in Reported(core);
      }
    }
  }

  lemma FileWorkers(c: Config, core: Core, ws: seq<Worker>, i: nat, res: NodeResult, p: Phase)
    requires Workers(c, core, ws) && i < |ws| && Handed(ws[i].phase) && ws[i].node == res.id
    requires res.reason != UpstreamFailed && p == if ws[i].phase.Delivered? then Releasing else Gone
    ensures Workers(c, Filed(core, res), ws[i := Worker(res.id, p)])
  {
    var core' := Filed(core, res);
    var ws' := ws[i := Worker(res.id, p)];
    var nodes := Nodes(ws);
    assert Nodes(ws') == nodes;
    CountUpdate(ws, i, Worker(res.id, p), InFlight);
    CountUpdate(ws, i, Worker(res.id, p), HoldsSlot);
    forall j | 0 <= j < |ws'| ensures Unrecorded(ws'[j].phase) <==> ws'[j].node !in core'.results {
      if j != i {
        assert nodes[j] != nodes[i];
      }
    }
    forall n | n in Reported(core') ensures n in Nodes(ws') {
      if n == res.id {
        assert nodes[i] == n;
      } else {
        assert n in Reported(core);
      }
    }
  }

  lemma FileQueue(d: Dag, core: Core, nodes: seq<Id>, res: NodeResult)
    requires Queue(d, core, nodes) && res.id !in core.results && res.reason != UpstreamFailed
    ensures Queue(d, Filed(core, res), nodes)
  {
    assert forall n :: Hit(Filed(core, res), n) <==> Hit(core, n);
  }

  /** A result to be recorded is the first of its node, and not a skip by a cascade. */
  lemma HandedFacts(c: Config, core: Core, ws: seq<Worker>, cancelled: bool, i: nat, res: NodeResult)
    requires Workers(c, core, ws) && Values(c, core, ws, cancelled)
    requires i < |ws| && Handed(ws[i].phase) && ws[i].phase.result == res
    ensures res.id == ws[i].node && res.id !in core.results && WellFormed(res.id, res) && res.reason != UpstreamFailed
  {
    assert WorkerValue(c, core.payloads, cancelled, ws[i]);
  }

  lemma FileSound(c: Config, core: Core, ws: seq<Worker>, cancelled: bool, i: nat, res: NodeResult, ws': seq<Worker>)
    requires Sound(c, core, ws, cancelled, [])
    requires i < |ws| && Handed(ws[i].phase) && ws[i].node == res.id && ws[i].phase.result == res
    requires ws' == ws[i := ws[i].(phase := if ws[i].phase.Delivered? then Releasing else Gone)]
    requires res.id !in core.results && WellFormed(res.id, res) && res.reason != UpstreamFailed
    ensures Sound(c, Filed(core, res), ws', cancelled, Successors(c.dag.edges, res.id))
  {
    assert Nodes(ws)[i] == res.id;
    assert Nodes(ws') == Nodes(ws);
    FileCounters(c.dag, core, res);
    FileQueue(c.dag, core, Nodes(ws), res);
    FileRecords(c.dag, core, res);
    FileValues(c, core, ws, cancelled, i, res, ws'[i].phase);
    FileWorkers(c, core, ws, i, res, ws'[i].phase);
  }

  lemma SuccessorsAreNodes(d: Dag, n: Id)
    requires d.Valid()
    ensures forall x :: x in Successors(d.edges, n) ==> x in d.Ids()
  {
    SuccessorsExact(d, n);
  }

  // --- the cascade ------------------------------------------------------------------------

  /** Nothing dispatched or ready lies below a failure that has just been recorded. */
  lemma CascadeMissesStarted(d: Dag, core: Core, nodes: seq<Id>, f: Id, n: Id)
    requires Counters(d, core, Successors(d.edges, f)) && Queue(d, core, nodes)
    requires forall x :: x in Reported(core) ==> x in nodes
    requires n in nodes || n in core.ready
    ensures !Reaches(d, f, n)
  {
    if Reaches(d, f, n) {
      var x := ReachesFirst(d, f, n);
      SuccessorsExact(d, f);
      assert x in Successors(d.edges, f);
      var started := Elems(nodes) + Elems(core.ready);
      forall a, b {:trigger d.HasEdge(a, b)} | d.HasEdge(a, b) && b in started ensures a in started {
        PredecessorsReported(d, core, nodes, Successors(d.edges, f), b);
      }
      if x != n {
        ClosedUnderAncestors(d, started, x, n);
      }
      PredecessorsReported(d, core, nodes, Successors(d.edges, f), x);
    }
  }

  lemma CascadeSound(c: Config, core: Core, ws: seq<Worker>, cancelled: bool, f: Id)
    requires c.dag.Valid() && Sound(c, core, ws, cancelled, Successors(c.dag.edges, f))
    requires Cascades(c.dag, core, Cascading(f)) && FailedAt(core.results, f)
    ensures Sound(c, Cascaded(c.dag, core, f), ws, cancelled, Successors(c.dag.edges, f))
    ensures Cascades(c.dag, Cascaded(c.dag, core, f), Enqueuing(Successors(c.dag.edges, f)))
  {
    var d, nodes := c.dag, Nodes(ws);
    forall n | n in nodes || n in core.ready ensures !Reaches(d, f, n) {
      CascadeMissesStarted(d, core, nodes, f, n);
    }
    FailureReported(d, core, f);
    CascadeExact(d, core, nodes, f);
    CascadeRecords(d, core, f);
    CascadeRest(c, core, ws, cancelled, f, Cascaded(d, core, f));
  }

  lemma FailureReported(d: Dag, core: Core, f: Id)
    requires Shapes(d, core) && FailedAt(core.results, f)
    ensures f in Reported(core)
  {
    assert WellFormed(f, core.results[f]);
  }

  /** After the cascade exactly the old hits and the descendants of the failure are hit. */
  lemma CascadeExact(d: Dag, core: Core, nodes: seq<Id>, f: Id)
    requires d.Valid() && Cascades(d, core, Cascading(f)) && core.completed.Keys == core.results.Keys
    requires f in nodes && FailedAt(core.results, f)
    requires forall x :: x in Reported(core) ==> x in nodes
    requires forall n :: n in nodes ==> !Reaches(d, f, n)
    ensures forall n :: Hit(Cascaded(d, core, f), n) <==> Hit(core, n) || Reaches(d, f, n)
    ensures Cascades(d, Cascaded(d, core, f), Enqueuing(Successors(d.edges, f)))
    ensures Reported(Cascaded(d, core, f)) == Reported(core)
  {
    var core' := Cascaded(d, core, f);
    var pc' := Enqueuing(Successors(d.edges, f));
    DescendantsExact(d, f);
    forall n ensures Hit(core', n) <==> Hit(core, n) || Reaches(d, f, n) {
      if n in core.results && !Hit(core, n) {
        assert n in Reported(core);
      }
    }
    assert forall n :: n in Reported(core') <==> n in Reported(core);
    assert forall g :: Spread(core', pc', g) <==> Spread(core, Cascading(f), g) || g == f;
  }

  lemma CascadeRecords(d: Dag, core: Core, f: Id)
    requires d.Valid() && Records(d, core)
    ensures Records(d, Cascaded(d, core, f))
  {
    DescendantsExact(d, f);
    forall n | n in Descendants(d, f) ensures n in d.Ids() {
      ReachesNodes(d, f, n);
    }
    MarkedRecords(d, core, Descendants(d, f));
  }

  lemma MarkedRecords(d: Dag, core: Core, ids: seq<Id>)
    requires Records(d, core) && forall n :: n in ids ==> n in d.Ids()
    ensures Records(d, Marked(core, ids))
  {
    MarkedShapes(d, core, ids);
    MarkedFailures(core, ids);
    MarkedPayloads(core, ids);
  }

  lemma MarkedShapes(d: Dag, core: Core, ids: seq<Id>)
    requires Shapes(d, core) && forall n :: n in ids ==> n in d.Ids()
    ensures Shapes(d, Marked(core, ids))
  {
    var core' := Marked(core, ids);
    assert forall n :: n in core'.results && n !in core.results ==> core'.results[n] == SkippedFor(n, UpstreamFailed);
  }

  lemma MarkedFailures(core: Core, ids: seq<Id>)
    requires core.completed.Keys == core.results.Keys && ErrorKept(core)
    ensures ErrorKept(Marked(core, ids))
  {
    assert forall n :: FailedAt(Marked(core, ids).results, n) <==> FailedAt(core.results, n);
  }

  lemma MarkedPayloads(core: Core, ids: seq<Id>)
    requires core.completed.Keys == core.results.Keys && PayloadsRecorded(core)
    ensures PayloadsRecorded(Marked(core, ids))
  {
  }

  /** The cascade changes nothing else: what it marks was neither started nor recorded. */
  lemma CascadeRest(c: Config, core: Core, ws: seq<Worker>, cancelled: bool, f: Id, core': Core)
    requires c.dag.Valid() && Sound(c, core, ws, cancelled, Successors(c.dag.edges, f))
    requires core' == Cascaded(c.dag, core, f) && Records(c.dag, core') && Reported(core') == Reported(core)
    requires forall n :: n in Nodes(ws) || n in core.ready ==> !Reaches(c.dag, f, n)
    requires forall n :: Hit(core', n) <==> Hit(core, n) || Reaches(c.dag, f, n)
    ensures Sound(c, core', ws, cancelled, Successors(c.dag.edges, f))
  {
    MarkedRest(c, core, ws, cancelled, Successors(c.dag.edges, f), Descendants(c.dag, f), core');
  }

  lemma MarkedRest(c: Config, core: Core, ws: seq<Worker>, cancelled: bool, owed: seq<Id>, ids: seq<Id>, core': Core)
    requires Counters(c.dag, core, owed) && Queue(c.dag, core, Nodes(ws)) && core.completed.Keys == core.results.Keys
    requires Workers(c, core, ws) && Values(c, core, ws, cancelled) && core' == Marked(core, ids)
    requires forall n :: Hit(core, n) ==> Hit(core', n)
    requires forall n :: n in Nodes(ws) || n in core.ready ==> !Hit(core', n)
    requires Reported(core') == Reported(core)
    ensures Counters(c.dag, core', owed) && Queue(c.dag, core', Nodes(ws))
    ensures Workers(c, core', ws) && Values(c, core', ws, cancelled)
  {
    MarkedWorkers(c, core, ws, ids, core');
    assert forall n :: n in core'.results && !Hit(core', n) ==>
      n in core.results && core'.results[n] == core.results[n];
  }

  lemma MarkedWorkers(c: Config, core: Core, ws: seq<Worker>, ids: seq<Id>, core': Core)
    requires Workers(c, core, ws) && core' == Marked(core, ids) && core.completed.Keys == core.results.Keys
    requires (forall n :: n in Nodes(ws) ==> !Hit(core', n)) && Reported(core') == Reported(core)
    ensures Workers(c, core', ws)
  {
    forall i | 0 <= i < |ws| ensures ws[i].node in core'.results <==> ws[i].node in core.results {
      assert Nodes(ws)[i] == ws[i].node;
      assert ws[i].node in Nodes(ws);
      assert !Hit(core', ws[i].node);
    }
  }

  // --- handling one successor -------------------------------------------------------------

  /** A completed child was hit by a cascade, so its counter no longer matters. */
  lemma EnqueueSkipped(d: Dag, core: Core, nodes: seq<Id>, rest: seq<Id>)
    requires Counters(d, core, rest) && Queue(d, core, nodes) && rest != [] && rest[0] in core.results
    requires forall n :: n in Reported(core) ==> n in nodes
    ensures Counters(d, core, rest[1..])
  {
    var child := rest[0];
    assert rest == [child] + rest[1..];
    assert child in rest;
    assert Hit(core, child) by {
      if !Hit(core, child) {
        assert child in Reported(core);
        PredecessorsReported(d, core, nodes, rest, child);
      }
    }
  }

  /** A child whose counter is lowered, and queued at zero. */
  ghost predicate Lowered(core: Core, child: Id, core': Core)
  {
    && child !in core.completed
    && core' == Enqueued(core, child)
  }

  lemma EnqueueCounted(d: Dag, core: Core, nodes: seq<Id>, rest: seq<Id>, core': Core)
    requires Counters(d, core, rest) && Queue(d, core, nodes) && rest != [] && rest[0] in d.Ids()
    requires rest[0] !in core.results && Lowered(core, rest[0], core')
    ensures Counters(d, core', rest[1..]) && Queue(d, core', nodes)
  {
    LoweredCounters(d, core, rest, core');
    LoweredQueue(d, core, nodes, rest, core');
  }

  lemma LoweredCounters(d: Dag, core: Core, rest: seq<Id>, core': Core)
    requires Counters(d, core, rest) && rest != [] && rest[0] in d.Ids()
    requires rest[0] !in core.results && Lowered(core, rest[0], core')
    ensures Counters(d, core', rest[1..])
    ensures core.pending[rest[0]] >= 1
  {
    assert rest == [rest[0]] + rest[1..];
    assert forall n :: Hit(core', n) <==> Hit(core, n);
    assert Reported(core') == Reported(core);
  }

  lemma LoweredQueue(d: Dag, core: Core, nodes: seq<Id>, rest: seq<Id>, core': Core)
    requires Queue(d, core, nodes) && rest != [] && rest[0] in d.Ids() && rest[0] in core.pending
    requires rest[0] !in core.results && Lowered(core, rest[0], core') && core.pending[rest[0]] >= 1
    ensures Queue(d, core', nodes)
  {
    var child := rest[0];
    assert forall n :: Hit(core', n) <==> Hit(core, n);
    assert child !in nodes && child !in core.ready;
    InsertedNoDup(nodes, core.ready, child);
    InsertedSorted(core.ready, child);
    InsertedElements(core.ready, child);
  }

  lemma EnqueueOne(c: Config, core: Core, ws: seq<Worker>, cancelled: bool, rest: seq<Id>, core': Core)
    requires Sound(c, core, ws, cancelled, rest) && rest != [] && rest[0] in c.dag.Ids()
    requires core' == Enqueued(core, rest[0])
    ensures Sound(c, core', ws, cancelled, rest[1..])
  {
    if rest[0] in core.completed {
      EnqueueSkipped(c.dag, core, Nodes(ws), rest);
    } else {
      EnqueueCounted(c.dag, core, Nodes(ws), rest, core');
      SameRecords(c.dag, core, core');
      SameValues(c, core, core', ws, cancelled);
      SameWorkers(c, core, core', ws);
    }
  }

  lemma EnqueuedResults(core: Core, child: Id)
    ensures Enqueued(core, child).results == core.results
  {
  }

  // --- every run --------------------------------------------------------------------------

  /** The actions of the workers, and a cancellation, keep what holds of the variables and the workers. */
  lemma WorkerSound(c: Config, s: State, a: Action)
    requires c.dag.Valid() && SoundIn(c, s) && Enabled(c, s, a)
    requires !a.Receive? && !a.Record? && !a.Cascade? && !a.EnqueueNext? && !a.DrainNext?
    ensures SoundIn(c, Apply(c, s, a))
  {
    if a.Cancel? {
      CancelSound(c, s.core, s.workers, Owed(c.dag, s.pc));
    } else {
      var i := a.worker;
      var o := if a.Finish? then a.outcome else ErrsCancelled;
      if a.Check? {
        NotCompleted(c, s.core, s.workers, i);
      }
      OwnStep(c, s.core, s.workers, s.cancelled, Owed(c.dag, s.pc), i, o, Apply(c, s, a).workers[i].phase);
    }
  }

  lemma NotCompleted(c: Config, core: Core, ws: seq<Worker>, i: nat)
    requires Shapes(c.dag, core) && Workers(c, core, ws) && i < |ws| && Unrecorded(ws[i].phase)
    ensures ws[i].node !in core.completed
  {
  }

  /** Taking a result off the channel keeps it. */
  lemma ReceiveStep(c: Config, s: State, i: nat)
    requires c.dag.Valid() && SoundIn(c, s) && Enabled(c, s, Receive(i))
    ensures SoundIn(c, Apply(c, s, Receive(i)))
  {
    TakenSound(c, s.core, s.workers, s.cancelled, i, s.workers[i].phase.result);
  }

  lemma RecordApplied(c: Config, s: State)
    requires c.dag.Valid() && Enabled(c, s, Record)
    ensures
      var w, s' := s.workers[s.pc.worker], Apply(c, s, Record);
      && s'.core == Filed(s.core, w.phase.result) && s'.cancelled == s.cancelled
      && s'.workers == s.workers[s.pc.worker := w.(phase := if w.phase.Delivered? then Releasing else Gone)]
      && Owed(c.dag, s'.pc) == Successors(c.dag.edges, w.phase.result.id)
  {
  }

  /** Recording it keeps it, and leaves the record's successors owed. */
  lemma RecordStep(c: Config, s: State)
    requires c.dag.Valid() && SoundIn(c, s) && Enabled(c, s, Record)
    ensures SoundIn(c, Apply(c, s, Record))
  {
    var i := s.pc.worker;
    RecordApplied(c, s);
    RecordOne(c, s.core, s.workers, s.cancelled, i, Apply(c, s, Record).workers);
  }

  lemma RecordOne(c: Config, core: Core, ws: seq<Worker>, cancelled: bool, i: nat, ws': seq<Worker>)
    requires Sound(c, core, ws, cancelled, []) && i < |ws| && Handed(ws[i].phase)
    requires ws' == ws[i := ws[i].(phase := if ws[i].phase.Delivered? then Releasing else Gone)]
    ensures
      var res := ws[i].phase.result;
      Sound(c, Filed(core, res), ws', cancelled, Successors(c.dag.edges, res.id))
  {
    var res := ws[i].phase.result;
    HandedFacts(c, core, ws, cancelled, i, res);
    FileSound(c, core, ws, cancelled, i, res, ws');
  }

  lemma EnqueueApplied(c: Config, s: State)
    requires c.dag.Valid() && Enabled(c, s, EnqueueNext)
    ensures
      var rest, s' := s.pc.rest, Apply(c, s, EnqueueNext);
      && s'.workers == s.workers && s'.cancelled == s.cancelled
      && s'.core == (if rest == [] then s.core else Enqueued(s.core, rest[0]))
      && Owed(c.dag, s'.pc) == if rest == [] then [] else rest[1..]
  {
  }

  /** Handling one child keeps it: a counter reaches zero once, whatever was skipped meanwhile. */
  lemma EnqueueStep(c: Config, s: State)
    requires c.dag.Valid() && SoundIn(c, s) && Control(c.dag, s.core, s.pc) && Enabled(c, s, EnqueueNext)
    ensures SoundIn(c, Apply(c, s, EnqueueNext))
  {
    var rest := s.pc.rest;
    EnqueueApplied(c, s);
    if rest != [] {
      assert rest[0] in Owed(c.dag, s.pc);
      EnqueueOne(c, s.core, s.workers, s.cancelled, rest, Apply(c, s, EnqueueNext).core);
    }
  }

  lemma DrainApplied(c: Config, s: State)
    requires c.dag.Valid() && Enabled(c, s, DrainNext)
    ensures
      var s' := Apply(c, s, DrainNext);
      && s'.cancelled == s.cancelled && Owed(c.dag, s'.pc) == Owed(c.dag, s.pc) == []
      && if s.core.ready == [] then s'.core == s.core && s'.workers == s.workers
         else Dispatched(s.core, s.workers, s'.core, s'.workers)
  {
  }

  /** Dispatching the head of the queue keeps it. */
  lemma DrainStep(c: Config, s: State)
    requires c.dag.Valid() && SoundIn(c, s) && Enabled(c, s, DrainNext)
    ensures SoundIn(c, Apply(c, s, DrainNext))
  {
    DrainApplied(c, s);
    if s.core.ready != [] {
      var s' := Apply(c, s, DrainNext);
      DrainOne(c, s.core, s.workers, s.cancelled, s'.core, s'.workers);
    }
  }

  lemma CascadeApplied(c: Config, s: State)
    requires c.dag.Valid() && Enabled(c, s, Cascade)
    ensures
      var f, s' := s.pc.failed, Apply(c, s, Cascade);
      && s' == State(Cascaded(c.dag, s.core, f), s.workers, s.cancelled, Enqueuing(Successors(c.dag.edges, f)))
      && Owed(c.dag, s'.pc) == Owed(c.dag, s.pc) == Successors(c.dag.edges, f)
  {
  }

  /** The skip cascade keeps it, and what holds of the main loop's place. */
  lemma CascadeStep(c: Config, s: State)
    requires c.dag.Valid() && SoundIn(c, s) && Flow(c.dag, s) && Enabled(c, s, Cascade)
    ensures SoundIn(c, Apply(c, s, Cascade)) && Flow(c.dag, Apply(c, s, Cascade))
  {
    CascadeApplied(c, s);
    CascadeSound(c, s.core, s.workers, s.cancelled, s.pc.failed);
    SuccessorsAreNodes(c.dag, s.pc.failed);
  }

  /** Every other action keeps what holds of the main loop's place. */
  lemma FlowStep(c: Config, s: State, a: Action)
    requires c.dag.Valid() && Flow(c.dag, s) && Enabled(c, s, a) && !a.Record? && !a.Cascade?
    ensures Flow(c.dag, Apply(c, s, a))
  {
    var s' := Apply(c, s, a);
    if a.EnqueueNext? && s.pc.rest != [] {
      EnqueuedResults(s.core, s.pc.rest[0]);
    }
    if s.pc.Cascading? {
      assert s'.core == s.core && s'.pc == s.pc;
    } else {
      SameCascades(c.dag, s.core, s.pc, s'.core, s'.pc);
    }
  }

  lemma RecordFlow(c: Config, s: State)
    requires c.dag.Valid() && SoundIn(c, s) && Flow(c.dag, s) && Enabled(c, s, Record)
    ensures Flow(c.dag, Apply(c, s, Record))
  {
    var i, s' := s.pc.worker, Apply(c, s, Record);
    var res := s.workers[i].phase.result;
    RecordApplied(c, s);
    HandedFacts(c, s.core, s.workers, s.cancelled, i, res);
    FileCascades(c.dag, s.core, s.pc, res, s'.pc);
    SuccessorsAreNodes(c.dag, res.id);
  }

  lemma LoopStep(c: Config, s: State, a: Action)
    requires c.dag.Valid() && SoundIn(c, s) && Flow(c.dag, s) && Enabled(c, s, a)
    requires a.Receive? || a.Record? || a.Cascade? || a.EnqueueNext? || a.DrainNext?
    ensures SoundIn(c, Apply(c, s, a)) && Flow(c.dag, Apply(c, s, a))
  {
    match a
    case Receive(i) => ReceiveStep(c, s, i); FlowStep(c, s, a);
    case Record => RecordStep(c, s); RecordFlow(c, s);
    case Cascade => CascadeStep(c, s);
    case EnqueueNext => EnqueueStep(c, s); FlowStep(c, s, a);
    case DrainNext => DrainStep(c, s); FlowStep(c, s, a);
  }

  lemma StepInv(c: Config, s: State, a: Action)
    requires c.dag.Valid() && Inv(c, s)
    ensures Inv(c, Step(c, s, a))
  {
    if Enabled(c, s, a) && !s.pc.Aborted? {
      if a.Receive? || a.Record? || a.Cascade? || a.EnqueueNext? || a.DrainNext? {
        LoopStep(c, s, a);
      } else {
        WorkerSound(c, s, a);
        FlowStep(c, s, a);
      }
    }
  }

  /** The invariant holds after every run, whatever the interleaving. */
  lemma {:induction false} Always(c: Config, cancelled: bool, acts: seq<Action>)
    requires c.dag.Valid()
    ensures Inv(c, After(c, cancelled, acts))
  {
    if acts == [] {
      InitInv(c, cancelled);
    } else {
      Always(c, cancelled, acts[..|acts| - 1]);
      StepInv(c, After(c, cancelled, acts[..|acts| - 1]), acts[|acts| - 1]);
    }
  }
}
