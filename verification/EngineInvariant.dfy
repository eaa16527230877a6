/** What holds in every state of every run of the engine, and that every action keeps it. */
module EngineInvariant {
  import opened Wrappers
  import opened Ordering
  import opened Graph
  import opened TopoSort
  import opened Engine

  // --- vocabulary -------------------------------------------------------------------------

  /** Skipped by a cascade. */
  predicate Hit(core: Core, n: Id)
  {
    n in core.results && core.results[n].reason == UpstreamFailed
  }

  /** The nodes whose own worker reported. */
  function Reported(core: Core): set<Id>
  {
    set n | n in core.results && core.results[n].reason != UpstreamFailed
  }

  /** Children whose counters the main loop has still to decrease. */
  function Owed(d: Dag, pc: Pc): seq<Id>
  {
    match pc
    case Cascading(f) => Successors(d.edges, f)
    case Enqueuing(rest) => rest
    case _ => []
  }

  predicate FailedAt(results: map<Id, NodeResult>, f: Id)
  {
    f in results && results[f].status == Failed
  }

  /** A failure whose cascade has been carried out. */
  predicate Spread(core: Core, pc: Pc, f: Id)
  {
    FailedAt(core.results, f) && pc != Cascading(f)
  }

  /** The shapes a record can have. */
  predicate WellFormed(n: Id, r: NodeResult)
  {
    && r.id == n
    && (r.status == Success ==> r.reason == NoReason)
    && (r.status == Failed ==> r.reason == NoReason && r.payload.None?)
    && (r.status == Skipped ==> r == SkippedFor(n, UpstreamFailed) || r == SkippedFor(n, Cancelled))
  }

  // --- the invariant ----------------------------------------------------------------------

  ghost predicate Counters(d: Dag, core: Core, owed: seq<Id>)
  {
    && core.pending.Keys == d.Ids()
    && forall n :: n in d.Ids() && !Hit(core, n) ==>
         core.pending[n] == Unmet(d.edges, Reported(core), n) + multiset(owed)[n]
  }

  /** Dispatched or ready is the same as a zero counter; cascades hit nothing dispatched or ready. */
  ghost predicate Queue(d: Dag, core: Core, nodes: seq<Id>)
  {
    && NoDup(nodes + core.ready)
    && Sorted(core.ready)
    && (forall n :: n in nodes || n in core.ready ==> n in d.Ids() && !Hit(core, n))
    && (forall n :: n in core.pending && !Hit(core, n) ==>
          (n in nodes || n in core.ready <==> core.pending[n] == 0))
  }

  /** The status table and the records cover the same nodes and agree. */
  ghost predicate Shapes(d: Dag, core: Core)
  {
    && core.completed.Keys == core.results.Keys
    && (forall n :: n in core.results ==>
          n in d.Ids() && core.completed[n] == core.results[n].status && WellFormed(n, core.results[n]))
  }

  /** The payload table is exactly the recorded payloads. */
  ghost predicate PayloadsRecorded(core: Core)
  {
    && (forall n :: n in core.payloads <==> n in core.results && core.results[n].payload.Some?)
    && (forall n :: n in core.payloads ==> core.results[n].payload == Some(core.payloads[n]))
  }

  /** A first error is kept exactly when some failure is recorded. */
  ghost predicate ErrorKept(core: Core)
  {
    && (forall n :: FailedAt(core.results, n) ==> core.firstErr.Some?)
    && (core.firstErr.Some? ==> FailedAt(core.results, core.firstErr.value))
  }

  ghost predicate Records(d: Dag, core: Core)
  {
    Shapes(d, core) && PayloadsRecorded(core) && ErrorKept(core)
  }

  /** Cascade exactness: hit is the same as having a proper ancestor whose failure has spread. */
  ghost predicate Cascades(d: Dag, core: Core, pc: Pc)
  {
    forall n :: Hit(core, n) <==> exists f :: Spread(core, pc, f) && Reaches(d, f, n)
  }

  ghost predicate Workers(c: Config, core: Core, ws: seq<Worker>)
  {
    && (forall i :: 0 <= i < |ws| ==> (Unrecorded(ws[i].phase) <==> ws[i].node !in core.results))
    && (forall n :: n in Reported(core) ==> n in Nodes(ws))
    && core.inFlight == Count(ws, InFlight)
    && Count(ws, HoldsSlot) <= Limit(c)
    && TopoPrefix(c.dag, Nodes(ws))
  }

  /** A result its node may report: uncancelled, it is the pure outcome of the node. */
  ghost predicate Reportable(c: Config, payloads: map<Id, Payload>, cancelled: bool, n: Id, r: NodeResult)
  {
    && WellFormed(n, r) && r.reason != UpstreamFailed
    && (cancelled || (r == NodeOutcome(c, payloads, n)))
  }

  ghost predicate WorkerValue(c: Config, payloads: map<Id, Payload>, cancelled: bool, w: Worker)
  {
    && (w.phase.Running? ==> w.phase.inputs == InputsFor(c.dag, payloads, w.node))
    && (w.phase.Finished? || Handed(w.phase) ==> Reportable(c, payloads, cancelled, w.node, w.phase.result))
  }

  ghost predicate Values(c: Config, core: Core, ws: seq<Worker>, cancelled: bool)
  {
    && (forall i :: 0 <= i < |ws| ==> WorkerValue(c, core.payloads, cancelled, ws[i]))
    && (forall n :: n in core.results && !Hit(core, n) ==>
          Reportable(c, core.payloads, cancelled, n, core.results[n]))
  }

  ghost predicate Control(d: Dag, core: Core, pc: Pc)
  {
    && (pc.Receiving? ==> core.ready == [])
    && (pc.Cascading? ==> FailedAt(core.results, pc.failed))
    && (forall n :: n in Owed(d, pc) ==> n in d.Ids())
  }

  /** Only the worker whose result the main loop is about to record has been received from and not recorded. */
  ghost predicate HandOver(ws: seq<Worker>, pc: Pc)
  {
    && (pc.Recording? ==> pc.worker < |ws|)
    && forall i :: 0 <= i < |ws| ==> (Handed(ws[i].phase) <==> pc == Recording(i))
  }

  /** What holds of the scheduler's variables and the workers, given the children still owed. */
  ghost predicate Sound(c: Config, core: Core, ws: seq<Worker>, cancelled: bool, owed: seq<Id>)
  {
    && Counters(c.dag, core, owed)
    && Queue(c.dag, core, Nodes(ws))
    && Records(c.dag, core)
    && Workers(c, core, ws)
    && Values(c, core, ws, cancelled)
  }

  ghost predicate SoundIn(c: Config, s: State)
  {
    Sound(c, s.core, s.workers, s.cancelled, Owed(c.dag, s.pc))
  }

  /** What holds of the place the main loop has reached. */
  ghost predicate Flow(d: Dag, s: State)
  {
    Cascades(d, s.core, s.pc) && Control(d, s.core, s.pc) && HandOver(s.workers, s.pc)
  }

  ghost predicate Inv(c: Config, s: State)
  {
    if s.pc.Aborted? then s == Init(c, true) else SoundIn(c, s) && Flow(c.dag, s)
  }

  // --- small facts ------------------------------------------------------------------------

  lemma {:induction false} CountUpdate(ws: seq<Worker>, i: nat, w: Worker, p: Phase -> bool)
    requires i < |ws|
    ensures Count(ws[i := w], p) == Count(ws, p) - (if p(ws[i].phase) then 1 else 0) + (if p(w.phase) then 1 else 0)
  {
    var l := |ws| - 1;
    if i < l {
      CountUpdate(ws[..l], i, w, p);
      assert ws[i := w][..l] == ws[..l][i := w];
    } else {
      assert ws[i := w][..l] == ws[..l];
    }
  }

  lemma CountAppend(ws: seq<Worker>, w: Worker, p: Phase -> bool)
    ensures Count(ws + [w], p) == Count(ws, p) + if p(w.phase) then 1 else 0
  {
    assert (ws + [w])[..|ws|] == ws;
  }

  /** Predecessors of a dispatched or ready node have all reported, and nothing is owed to it. */
  lemma PredecessorsReported(d: Dag, core: Core, nodes: seq<Id>, owed: seq<Id>, n: Id)
    requires Counters(d, core, owed) && Queue(d, core, nodes) && (n in nodes || n in core.ready)
    ensures forall a :: d.HasEdge(a, n) ==> a in Reported(core)
    ensures n !in owed
  {
    UnmetZero(d.edges, Reported(core), n);
    assert Unmet(d.edges, Reported(core), n) + multiset(owed)[n] == 0;
    assert n in owed <==> n in multiset(owed);
  }

  lemma ReadyDistinct(nodes: seq<Id>, ready: seq<Id>, n: Id)
    requires NoDup(nodes + ready) && n in ready
    ensures n !in nodes
  {
    var i :| 0 <= i < |ready| && ready[i] == n;
    assert (nodes + ready)[|nodes| + i] == n;
    assert forall j :: 0 <= j < |nodes| ==> (nodes + ready)[j] == nodes[j];
  }

  /** Inputs depend only on the predecessors' payloads. */
  lemma InputsStable(d: Dag, p1: map<Id, Payload>, p2: map<Id, Payload>, n: Id)
    requires forall a :: d.HasEdge(a, n) ==> (a in p1 <==> a in p2) && (a in p1 ==> p1[a] == p2[a])
    ensures InputsFor(d, p1, n) == InputsFor(d, p2, n)
  {
    PredecessorsExact(d, n);
    var m1 := map p | p in Predecessors(d.edges, n) && p in p1 :: FromNode(p1[p]);
    var m2 := map p | p in Predecessors(d.edges, n) && p in p2 :: FromNode(p2[p]);
    assert m1 == m2;
  }
}
