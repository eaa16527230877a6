/** Safety and progress of the engine over every run, cancelled or not. */
module EngineSafety {
  import opened Wrappers
  import opened Ordering
  import opened JsonTree
  import opened Graph
  import opened TopoSort
  import opened Closure
  import opened Engine
  import opened EngineInvariant
  import opened EngineSteps
  import opened Confluence

  // --- cascades ---------------------------------------------------------------------------

  /** Outside the cascade itself, skipped-because-upstream-failed means a recorded failed ancestor. */
  lemma CascadeExactness(c: Config, cancelled: bool, acts: seq<Action>, n: Id)
    requires c.dag.Valid() && !After(c, cancelled, acts).pc.Cascading?
    ensures
      var results := After(c, cancelled, acts).core.results;
      && (n in results && results[n].status == Skipped && results[n].reason == UpstreamFailed
          <==> BelowFailure(c.dag, results, n))
      && (BelowFailure(c.dag, results, n) ==> results[n] == NodeResult(n, Skipped, UpstreamFailed, None, ""))
  {
    var s := After(c, cancelled, acts);
    if s.pc.Aborted? {
      AbortedRecords(c, cancelled, acts);
    } else {
      CascadesAlways(c, cancelled, acts);
      HitIffBelowFailure(c.dag, s.core, s.pc, n);
    }
  }

  lemma CascadesAlways(c: Config, cancelled: bool, acts: seq<Action>)
    requires c.dag.Valid() && !After(c, cancelled, acts).pc.Aborted?
    ensures
      var s := After(c, cancelled, acts);
      && Cascades(c.dag, s.core, s.pc)
      && forall n :: Hit(s.core, n) ==> s.core.results[n] == NodeResult(n, Skipped, UpstreamFailed, None, "")
  {
    Always(c, cancelled, acts);
    HitsSkipped(c.dag, After(c, cancelled, acts).core);
  }

  lemma HitsSkipped(d: Dag, core: Core)
    requires Shapes(d, core)
    ensures forall n :: Hit(core, n) ==> core.results[n] == NodeResult(n, Skipped, UpstreamFailed, None, "")
  {
    assert forall n :: n in core.results ==> WellFormed(n, core.results[n]);
  }

  /** A context cancelled before the start: every node is skipped as cancelled, and nothing else ever happens. */
  lemma CancelledStart(c: Config, acts: seq<Action>)
    requires c.dag.Valid()
    ensures
      var s := After(c, true, acts);
      && Exited(s) && s.workers == []
      && s.core.results == map n | n in c.dag.Ids() :: NodeResult(n, Skipped, Cancelled, None, "")
  {
    Always(c, true, acts);
    AbortedStays(c, acts);
  }

  lemma {:induction false} AbortedStays(c: Config, acts: seq<Action>)
    requires c.dag.Valid()
    ensures After(c, true, acts).pc.Aborted? && After(c, true, acts).workers == []
  {
    if acts != [] {
      AbortedStays(c, acts[..|acts| - 1]);
    }
  }

  lemma AbortedRecords(c: Config, cancelled: bool, acts: seq<Action>)
    requires c.dag.Valid() && After(c, cancelled, acts).pc.Aborted?
    ensures
      var results := After(c, cancelled, acts).core.results;
      && (forall f :: !FailedAt(results, f))
      && forall n :: n in results ==> results[n].reason == Cancelled
  {
    Always(c, cancelled, acts);
  }

  /** The cascade about to run hits no ready, dispatched or recorded-by-its-worker node. */
  lemma CascadeSparesStarted(c: Config, cancelled: bool, acts: seq<Action>, n: Id)
    requires c.dag.Valid() && After(c, cancelled, acts).pc.Cascading?
    requires n in After(c, cancelled, acts).core.ready || n in Nodes(After(c, cancelled, acts).workers)
    ensures n !in Descendants(c.dag, After(c, cancelled, acts).pc.failed)
  {
    var s := After(c, cancelled, acts);
    Always(c, cancelled, acts);
    CascadeMissesStarted(c.dag, s.core, Nodes(s.workers), s.pc.failed, n);
    DescendantsExact(c.dag, s.pc.failed);
  }

  /** The "already completed" answer of a worker's self check is never taken. */
  lemma AlreadyCompletedUnreachable(c: Config, cancelled: bool, acts: seq<Action>, i: nat)
    requires c.dag.Valid() && i < |After(c, cancelled, acts).workers|
    requires After(c, cancelled, acts).workers[i].phase.Holding?
    ensures After(c, cancelled, acts).workers[i].node !in After(c, cancelled, acts).core.completed
  {
    Always(c, cancelled, acts);
    NotYetCompleted(c, After(c, cancelled, acts), i);
  }

  lemma RecordKeepsRecords(core: Core, res: NodeResult)
    requires res.id !in core.results
    ensures Included(core.results, Filed(core, res).results)
  {
  }

  lemma CascadeKeepsRecords(d: Dag, core: Core, f: Id)
    requires d.Valid() && core.completed.Keys == core.results.Keys
    ensures Included(core.results, Cascaded(d, core, f).results)
  {
  }

  /** The worker whose result is to be recorded has no record yet, and reports under its own id. */
  lemma RecordIsNew(c: Config, s: State, i: nat)
    requires Inv(c, s) && !s.pc.Aborted? && Handed(PhaseOf(s, i))
    ensures s.workers[i].phase.result.id == s.workers[i].node && s.workers[i].node !in s.core.results
  {
    assert WorkerValue(c, s.core.payloads, s.cancelled, s.workers[i]);
  }

  lemma StepKeepsRecords(c: Config, s: State, a: Action)
    requires c.dag.Valid() && Inv(c, s)
    ensures Included(s.core.results, Step(c, s, a).core.results)
  {
    if Enabled(c, s, a) {
      match a
      case Record =>
        RecordIsNew(c, s, s.pc.worker);
        RecordKeepsRecords(s.core, s.workers[s.pc.worker].phase.result);
      case Cascade =>
        CascadeKeepsRecords(c.dag, s.core, s.pc.failed);
      case EnqueueNext =>
        if s.pc.rest != [] { EnqueuedResults(s.core, s.pc.rest[0]); }
      case _ =>
    }
  }

  /** A record, once made, is never changed or removed. */
  lemma {:induction false} RecordsNeverOverwritten(c: Config, cancelled: bool, acts: seq<Action>, k: nat)
    requires c.dag.Valid() && k <= |acts|
    ensures Included(After(c, cancelled, acts[..k]).core.results, After(c, cancelled, acts).core.results)
    decreases |acts|
  {
    if k < |acts| {
      var q := acts[..|acts| - 1];
      RecordsNeverOverwritten(c, cancelled, q, k);
      assert q[..k] == acts[..k];
      Always(c, cancelled, q);
      StepKeepsRecords(c, After(c, cancelled, q), acts[|acts| - 1]);
    } else {
      assert acts[..k] == acts;
    }
  }

  // --- dispatch safety --------------------------------------------------------------------

  predicate ReservedKey(k: string)
  {
    k in {"_params", "_type", "_subtype", "_id"}
  }

  /**
   While a node body runs, each predecessor has a record that is a success or a cancellation, no
   ancestor is recorded failed, and its inputs are exactly the payloads of its successful predecessors
   with its own definition under the four reserved keys.
   */
  lemma DispatchSafety(c: Config, cancelled: bool, acts: seq<Action>, i: nat)
    requires c.dag.Valid() && i < |After(c, cancelled, acts).workers|
    requires After(c, cancelled, acts).workers[i].phase.Running?
    ensures
      var s := After(c, cancelled, acts);
      var n := s.workers[i].node;
      && (forall p :: c.dag.HasEdge(p, n) ==>
            p in s.core.results && (s.core.results[p].status == Success || s.core.results[p].reason == Cancelled))
      && !BelowFailure(c.dag, s.core.results, n)
      && InputsExact(c.dag, s.core.results, n, s.workers[i].phase.inputs)
  {
    var s := After(c, cancelled, acts);
    Always(c, cancelled, acts);
    RunningFacts(c, s, i, s.workers[i].node);
    PredecessorsDone(c.dag, s.core, Nodes(s.workers), Owed(c.dag, s.pc), s.workers[i].node);
    InputsOfRecords(c.dag, s.core, s.workers[i].node);
  }

  /** What the invariant says of a worker inside its node body. */
  lemma RunningFacts(c: Config, s: State, i: nat, n: Id)
    requires c.dag.Valid() && Inv(c, s) && i < |s.workers| && s.workers[i].phase.Running? && n == s.workers[i].node
    ensures !s.pc.Aborted? && n in Nodes(s.workers) && n in c.dag.Ids() && !BelowFailure(c.dag, s.core.results, n)
    ensures s.workers[i].phase.inputs == InputsFor(c.dag, s.core.payloads, n)
  {
    assert Nodes(s.workers)[i] == n;
    NoFailureAbove(c, s, n);
    assert WorkerValue(c, s.core.payloads, s.cancelled, s.workers[i]);
  }

  /** The predecessors of a started node below no failure have succeeded or were cancelled. */
  lemma PredecessorsDone(d: Dag, core: Core, nodes: seq<Id>, owed: seq<Id>, n: Id)
    requires Counters(d, core, owed) && Queue(d, core, nodes) && Shapes(d, core) && n in nodes
    requires !BelowFailure(d, core.results, n)
    ensures forall p :: d.HasEdge(p, n) ==>
      p in core.results && (core.results[p].status == Success || core.results[p].reason == Cancelled)
  {
    PredecessorsReported(d, core, nodes, owed, n);
    forall p | d.HasEdge(p, n)
      ensures p in core.results && (core.results[p].status == Success || core.results[p].reason == Cancelled)
    {
      assert p in Reported(core) && WellFormed(p, core.results[p]);
      EdgeReaches(d, p, n);
      assert !FailedAt(core.results, p);
    }
  }

  /** Under the four reserved keys a node finds its own definition. */
  ghost predicate OwnInputs(def: Node, inputs: map<string, Input>)
  {
    && "_params" in inputs && inputs["_params"] == OwnParams(def.params)
    && "_type" in inputs && inputs["_type"] == OwnText(def.typ)
    && "_subtype" in inputs && inputs["_subtype"] == OwnText(def.subtype)
    && "_id" in inputs && inputs["_id"] == OwnText(def.id)
  }

  /** The inputs are the predecessors' recorded payloads with the node's own definition on top. */
  ghost predicate InputsExact(d: Dag, results: map<Id, NodeResult>, n: Id, inputs: map<string, Input>)
  {
    && (forall def :: def in d.nodes && def.id == n ==> OwnInputs(def, inputs))
    && forall k :: ReservedKey(k) || InputExact(d, results, n, inputs, k)
  }

  ghost predicate InputExact(d: Dag, results: map<Id, NodeResult>, n: Id, inputs: map<string, Input>, k: string)
  {
    && (k in inputs <==> d.HasEdge(k, n) && k in results && results[k].payload.Some?)
    && (k in inputs ==> k in results && results[k].payload.Some? && inputs[k] == FromNode(results[k].payload.value))
  }

  /** The same, over a table of payloads. */
  ghost predicate InputsFrom(d: Dag, payloads: map<Id, Payload>, n: Id, inputs: map<string, Input>)
  {
    && (forall def :: def in d.nodes && def.id == n ==> OwnInputs(def, inputs))
    && forall k :: ReservedKey(k) || InputFrom(d, payloads, n, inputs, k)
  }

  ghost predicate InputFrom(d: Dag, payloads: map<Id, Payload>, n: Id, inputs: map<string, Input>, k: string)
  {
    (k in inputs <==> d.HasEdge(k, n) && k in payloads) && (k in inputs ==> inputs[k] == FromNode(payloads[k]))
  }

  lemma InputAt(d: Dag, payloads: map<Id, Payload>, n: Id, k: string)
    requires !ReservedKey(k)
    ensures
      var inputs := InputsFor(d, payloads, n);
      && (k in inputs <==> k in Predecessors(d.edges, n) && k in payloads)
      && (k in inputs ==> inputs[k] == FromNode(payloads[k]))
  {
  }

  lemma DefinitionOfNode(d: Dag, def: Node)
    requires d.Valid() && def in d.nodes
    ensures Definition(d, def.id) == def
  {
    NodeByIdUnique(d.nodes, def);
  }

  /** What a worker builds is the inputs described. */
  lemma InputsForFrom(d: Dag, payloads: map<Id, Payload>, n: Id)
    requires d.Valid()
    ensures InputsFrom(d, payloads, n, InputsFor(d, payloads, n))
  {
    PredecessorsExact(d, n);
    var inputs := InputsFor(d, payloads, n);
    forall def | def in d.nodes && def.id == n ensures OwnInputs(def, inputs) {
      DefinitionOfNode(d, def);
    }
    forall k | !ReservedKey(k) ensures InputFrom(d, payloads, n, inputs, k) {
      InputAt(d, payloads, n, k);
    }
  }

  /** The description determines the inputs. */
  lemma InputsFromUnique(d: Dag, payloads: map<Id, Payload>, def: Node, a: map<string, Input>, b: map<string, Input>)
    requires def in d.nodes && InputsFrom(d, payloads, def.id, a) && InputsFrom(d, payloads, def.id, b)
    ensures a == b
  {
    assert OwnInputs(def, a) && OwnInputs(def, b);
    forall k ensures k in a <==> k in b {
      assert ReservedKey(k) || (InputFrom(d, payloads, def.id, a, k) && InputFrom(d, payloads, def.id, b, k));
    }
    forall k | k in a ensures a[k] == b[k] {
      assert ReservedKey(k) || (InputFrom(d, payloads, def.id, a, k) && InputFrom(d, payloads, def.id, b, k));
    }
  }

  /** Over the recorded payloads the two descriptions are the same. */
  lemma InputsSame(d: Dag, core: Core, n: Id, inputs: map<string, Input>)
    requires PayloadsRecorded(core)
    ensures InputsExact(d, core.results, n, inputs) <==> InputsFrom(d, core.payloads, n, inputs)
  {
    forall k ensures InputExact(d, core.results, n, inputs, k) <==> InputFrom(d, core.payloads, n, inputs, k) {
    }
    if InputsExact(d, core.results, n, inputs) {
      forall k ensures ReservedKey(k) || InputFrom(d, core.payloads, n, inputs, k) {
        assert ReservedKey(k) || InputExact(d, core.results, n, inputs, k);
      }
    }
    if InputsFrom(d, core.payloads, n, inputs) {
      forall k ensures ReservedKey(k) || InputExact(d, core.results, n, inputs, k) {
        assert ReservedKey(k) || InputFrom(d, core.payloads, n, inputs, k);
      }
    }
  }

  lemma InputsOfRecords(d: Dag, core: Core, n: Id)
    requires d.Valid() && Records(d, core)
    ensures InputsExact(d, core.results, n, InputsFor(d, core.payloads, n))
  {
    InputsForFrom(d, core.payloads, n);
    InputsSame(d, core, n, InputsFor(d, core.payloads, n));
  }

  // --- what an outcome becomes --------------------------------------------------------------

  /** The record that a node body's outcome becomes, `late` telling that the context was cancelled meanwhile. */
  ghost predicate Becomes(n: Id, out: Outcome, late: bool, r: NodeResult)
  {
    match out
    case Returns(payload) => r == NodeResult(n, Success, NoReason, payload, "")
    case Panics(message) => r == NodeResult(n, Failed, NoReason, None, message)
    case ErrsCancelled => r == NodeResult(n, Skipped, SkipReason.Cancelled, None, "")
    case Errs(error) =>
      if late then r == NodeResult(n, Skipped, SkipReason.Cancelled, None, "")
      else r == NodeResult(n, Failed, NoReason, None, error)
  }

  /** The outcome of a node's own body, on the inputs described, is what it reports while the context lives. */
  lemma OutcomeBecomes(c: Config, payloads: map<Id, Payload>, def: Node, inputs: map<string, Input>)
    requires c.dag.Valid() && def in c.dag.nodes && InputsFrom(c.dag, payloads, def.id, inputs)
    ensures Becomes(def.id, c.body(def.typ, def.subtype, inputs), false, NodeOutcome(c, payloads, def.id))
  {
    InputsForFrom(c.dag, payloads, def.id);
    InputsFromUnique(c.dag, payloads, def, inputs, InputsFor(c.dag, payloads, def.id));
    DefinitionOfNode(c.dag, def);
  }

  /**
   The record of a node in a finished uncancelled run: below a failure it is the skip; otherwise it is
   what the outcome of its own body becomes, called on exactly the recorded payloads of its predecessors
   and its own definition.
   */
  ghost predicate RecordRight(c: Config, results: map<Id, NodeResult>, def: Node)
  {
    def.id in results ==>
      var r := results[def.id];
      if BelowFailure(c.dag, results, def.id) then r == NodeResult(def.id, Skipped, UpstreamFailed, None, "")
      else
        && (exists inputs :: InputsExact(c.dag, results, def.id, inputs))
        && forall inputs :: InputsExact(c.dag, results, def.id, inputs) ==>
             Becomes(def.id, c.body(def.typ, def.subtype, inputs), false, r)
  }

  lemma RecordsRight(c: Config, acts: seq<Action>, def: Node)
    requires c.dag.Valid() && FinishedRun(c, acts) && !After(c, false, acts).cancelled && def in c.dag.nodes
    ensures RecordRight(c, After(c, false, acts).core.results, def)
  {
    var core := After(c, false, acts).core;
    if def.id in core.results {
      RecordValue(c, acts, def.id);
      if !BelowFailure(c.dag, core.results, def.id) {
        InputsOfRecords(c.dag, core, def.id);
        forall inputs | InputsExact(c.dag, core.results, def.id, inputs)
          ensures Becomes(def.id, c.body(def.typ, def.subtype, inputs), false, core.results[def.id])
        {
          InputsSame(c.dag, core, def.id, inputs);
          OutcomeBecomes(c, core.payloads, def, inputs);
        }
      }
    }
  }

  lemma RecordValue(c: Config, acts: seq<Action>, n: Id)
    requires c.dag.Valid() && FinishedRun(c, acts) && !After(c, false, acts).cancelled
    requires n in After(c, false, acts).core.results
    ensures
      var core := After(c, false, acts).core;
      && Records(c.dag, core)
      && if BelowFailure(c.dag, core.results, n)
         then core.results[n] == NodeResult(n, Skipped, UpstreamFailed, None, "")
         else core.results[n] == NodeOutcome(c, core.payloads, n)
  {
    RunFinished(c, acts);
    ValueOf(c, After(c, false, acts), n);
  }

  lemma ValueOf(c: Config, s: State, n: Id)
    requires Ended(c, s) && !s.cancelled && n in s.core.results
    ensures Records(c.dag, s.core)
    ensures if BelowFailure(c.dag, s.core.results, n)
            then s.core.results[n] == NodeResult(n, Skipped, UpstreamFailed, None, "")
            else s.core.results[n] == NodeOutcome(c, s.core.payloads, n)
  {
    HitIffBelowFailure(c.dag, s.core, s.pc, n);
    if Hit(s.core, n) {
      HitShape(c.dag, s.core, n);
    } else {
      assert Reportable(c, s.core.payloads, s.cancelled, n, s.core.results[n]);
    }
  }

  // --- the first failure --------------------------------------------------------------------

  /** The nodes whose failures the main loop has recorded, in the order of recording. */
  function Failures(c: Config, cancelled: bool, acts: seq<Action>): seq<Id>
    requires c.dag.Valid()
  {
    if acts == [] then []
    else
      var q, a := acts[..|acts| - 1], acts[|acts| - 1];
      var s := After(c, cancelled, q);
      Failures(c, cancelled, q) +
      if a.Record? && Enabled(c, s, a) && s.workers[s.pc.worker].phase.result.status == Failed
      then [s.workers[s.pc.worker].phase.result.id] else []
  }

  /** The error that is kept is the first failure recorded. */
  lemma {:induction false} FirstFailureKept(c: Config, cancelled: bool, acts: seq<Action>)
    requires c.dag.Valid()
    ensures
      var log := Failures(c, cancelled, acts);
      After(c, cancelled, acts).core.firstErr == if log == [] then None else Some(log[0])
  {
    if acts != [] {
      var q, a := acts[..|acts| - 1], acts[|acts| - 1];
      FirstFailureKept(c, cancelled, q);
      if Enabled(c, After(c, cancelled, q), a) {
        FirstErrorStep(c, After(c, cancelled, q), a);
      }
    }
  }

  lemma FirstErrorStep(c: Config, s: State, a: Action)
    requires c.dag.Valid() && Enabled(c, s, a)
    ensures
      var was, now := s.core.firstErr, Apply(c, s, a).core.firstErr;
      if a.Record? && s.workers[s.pc.worker].phase.result.status == Failed && was.None?
      then now == Some(s.workers[s.pc.worker].phase.result.id)
      else now == was
  {
  }

  lemma NoFailureAbove(c: Config, s: State, n: Id)
    requires c.dag.Valid() && Inv(c, s) && !s.pc.Aborted? && (n in Nodes(s.workers) || n in s.core.ready)
    ensures !BelowFailure(c.dag, s.core.results, n)
  {
    assert !Hit(s.core, n);
    forall f | FailedAt(s.core.results, f) ensures !Reaches(c.dag, f, n) {
      if s.pc == Cascading(f) {
        CascadeMissesStarted(c.dag, s.core, Nodes(s.workers), f, n);
      } else {
        assert Spread(s.core, s.pc, f);
      }
    }
  }

  // --- bounds and progress ----------------------------------------------------------------

  /** At most the limit of workers hold a slot, and the counter is the number of unreceived workers. */
  lemma SlotsBounded(c: Config, cancelled: bool, acts: seq<Action>)
    requires c.dag.Valid()
    ensures
      var s := After(c, cancelled, acts);
      && Count(s.workers, HoldsSlot) <= Limit(c)
      && s.core.inFlight == Count(s.workers, InFlight)
      && |s.workers| <= |c.dag.nodes|
  {
    var s := After(c, cancelled, acts);
    Always(c, cancelled, acts);
    if !s.pc.Aborted? {
      WorkersFit(c, s);
    }
  }

  predicate InBody(p: Phase)
  {
    p.Running?
  }

  lemma {:induction false} CountWithin(ws: seq<Worker>, p: Phase -> bool, q: Phase -> bool)
    requires forall x: Phase :: p(x) ==> q(x)
    ensures Count(ws, p) <= Count(ws, q)
  {
    if ws != [] {
      CountWithin(ws[..|ws| - 1], p, q);
    }
  }

  /** At most the configured number of node bodies run at once, one if that number is not positive. */
  lemma BodiesBounded(c: Config, cancelled: bool, acts: seq<Action>)
    requires c.dag.Valid()
    ensures Count(After(c, cancelled, acts).workers, InBody) <= 1 ||
            Count(After(c, cancelled, acts).workers, InBody) <= c.maxConcurrency
  {
    SlotsBounded(c, cancelled, acts);
    CountWithin(After(c, cancelled, acts).workers, InBody, HoldsSlot);
  }

  /** A waiting worker is let in while none, or fewer than the configured number, are in. */
  lemma SlotGranted(c: Config, s: State, i: nat)
    requires PhaseOf(s, i).Waiting?
    requires Count(s.workers, HoldsSlot) == 0 || Count(s.workers, HoldsSlot) < c.maxConcurrency
    ensures Enabled(c, s, Acquire(i))
  {
  }

  lemma WorkersFit(c: Config, s: State)
    requires c.dag.Valid() && Workers(c, s.core, s.workers)
    ensures |s.workers| <= |c.dag.nodes|
  {
    NoDupFits(Nodes(s.workers), c.dag.Ids());
    IdCount(c.dag);
  }

  lemma {:induction false} CountPositive(ws: seq<Worker>, p: Phase -> bool) returns (i: nat)
    requires Count(ws, p) > 0
    ensures i < |ws| && p(ws[i].phase)
  {
    if p(ws[|ws| - 1].phase) {
      i := |ws| - 1;
    } else {
      i := CountPositive(ws[..|ws| - 1], p);
    }
  }

  /** The next action of an unreceived or releasing worker that does not need a new slot. */
  function OwnMove(c: Config, s: State, i: nat): Action
    requires i < |s.workers|
  {
    match s.workers[i].phase
    case Waiting => Acquire(i)
    case Holding => Check(i)
    case Checked => Build(i)
    case Running(inputs) => Finish(i, Run(c, s.workers[i].node, inputs))
    case Finished(_) => Receive(i)
    case Delivered(_) => Release(i)
    case Left(_) => Record
    case Releasing => Release(i)
    case Gone => Release(i)
  }

  /** While a worker is unreceived, one of the workers can move: nobody waits for a slot that never comes. */
  lemma SomeWorkerMoves(c: Config, s: State) returns (a: Action)
    requires s.pc.Receiving? && Count(s.workers, InFlight) > 0
    ensures Enabled(c, s, a) && a != Cancel
  {
    if Count(s.workers, HoldsSlot) > 0 {
      var i := CountPositive(s.workers, HoldsSlot);
      a := OwnMove(c, s, i);
    } else {
      var i := CountPositive(s.workers, InFlight);
      CountZero(s.workers, HoldsSlot);
      a := OwnMove(c, s, i);
    }
  }

  lemma LoopWaits(c: Config, s: State)
    requires Inv(c, s) && s.pc.Receiving? && !Exited(s)
    ensures Count(s.workers, InFlight) > 0
  {
  }

  /** No deadlock: while the loop has not ended some action other than cancelling can happen. */
  lemma Progress(c: Config, cancelled: bool, acts: seq<Action>) returns (a: Action)
    requires c.dag.Valid() && !Exited(After(c, cancelled, acts))
    ensures Enabled(c, After(c, cancelled, acts), a) && a != Cancel
  {
    var s := After(c, cancelled, acts);
    match s.pc
    case Recording(_) =>
      Always(c, cancelled, acts);
      a := Record;
    case Cascading(_) => a := Cascade;
    case Enqueuing(_) => a := EnqueueNext;
    case Draining => a := DrainNext;
    case Receiving =>
      Always(c, cancelled, acts);
      LoopWaits(c, s);
      a := SomeWorkerMoves(c, s);
  }

  /** What is left of a worker's life; an unrecorded one also carries the main loop's work on it. */
  function Rest(p: Phase, extra: nat): nat
  {
    match p
    case Waiting => extra + 8
    case Holding => extra + 7
    case Checked => extra + 6
    case Running(_) => extra + 5
    case Finished(_) => extra + 4
    case Delivered(_) => extra + 3
    case Left(_) => extra + 2
    case Releasing => 1
    case Gone => 0
  }

  function RestOfAll(ws: seq<Worker>, extra: nat): nat
  {
    if ws == [] then 0 else RestOfAll(ws[..|ws| - 1], extra) + Rest(ws[|ws| - 1].phase, extra)
  }

  function RestOfMain(d: Dag, pc: Pc): nat
  {
    match pc
    case Cascading(f) => |Successors(d.edges, f)| + 3
    case Enqueuing(rest) => |rest| + 2
    case Draining => 1
    case _ => 0
  }

  /** Nodes not dispatched yet, at the price of a whole life each. */
  function RestOfNodes(left: int, extra: nat): int
  {
    left * (extra + 9)
  }

  /** Bounds the number of actions still to come. */
  function Measure(c: Config, s: State): int
  {
    var extra := |c.dag.edges| + 2;
    RestOfNodes(|c.dag.nodes| - |s.workers|, extra) + RestOfAll(s.workers, extra) + RestOfMain(c.dag, s.pc) +
    if s.cancelled then 0 else 1
  }

  lemma {:induction false} SuccessorsFit(edges: seq<Edge>, n: Id)
    ensures |Successors(edges, n)| <= |edges|
  {
    if edges != [] {
      SuccessorsFit(edges[..|edges| - 1], n);
    }
  }

  lemma {:induction false} RestUpdate(ws: seq<Worker>, i: nat, w: Worker, extra: nat)
    requires i < |ws|
    ensures RestOfAll(ws[i := w], extra) == RestOfAll(ws, extra) - Rest(ws[i].phase, extra) + Rest(w.phase, extra)
  {
    var l := |ws| - 1;
    if i < l {
      RestUpdate(ws[..l], i, w, extra);
      assert ws[i := w][..l] == ws[..l][i := w];
    } else {
      assert ws[i := w][..l] == ws[..l];
    }
  }

  lemma OneFewer(left: int, extra: nat)
    ensures RestOfNodes(left - 1, extra) == RestOfNodes(left, extra) - extra - 9
  {
  }

  lemma DrainDecreases(c: Config, s: State)
    requires c.dag.Valid() && Enabled(c, s, DrainNext)
    ensures Measure(c, Apply(c, s, DrainNext)) < Measure(c, s)
  {
    if s.core.ready != [] {
      var extra := |c.dag.edges| + 2;
      var s' := Apply(c, s, DrainNext);
      assert s'.workers[..|s.workers|] == s.workers;
      assert RestOfAll(s'.workers, extra) == RestOfAll(s.workers, extra) + extra + 8;
      OneFewer(|c.dag.nodes| - |s.workers|, extra);
    }
  }

  lemma RecordDecreases(c: Config, s: State)
    requires c.dag.Valid() && Enabled(c, s, Record)
    ensures Measure(c, Apply(c, s, Record)) < Measure(c, s)
  {
    var extra, i := |c.dag.edges| + 2, s.pc.worker;
    SuccessorsFit(c.dag.edges, s.workers[i].phase.result.id);
    RestUpdate(s.workers, i, Apply(c, s, Record).workers[i], extra);
  }

  lemma ReceiveDecreases(c: Config, s: State, i: nat)
    requires c.dag.Valid() && Enabled(c, s, Receive(i))
    ensures Measure(c, Apply(c, s, Receive(i))) < Measure(c, s)
  {
    RestUpdate(s.workers, i, Apply(c, s, Receive(i)).workers[i], |c.dag.edges| + 2);
  }

  lemma MovedDecreases(c: Config, s: State, i: nat, p: Phase)
    requires i < |s.workers| && Rest(p, |c.dag.edges| + 2) < Rest(s.workers[i].phase, |c.dag.edges| + 2)
    ensures Measure(c, Moved(s, i, p)) < Measure(c, s)
  {
    RestUpdate(s.workers, i, s.workers[i].(phase := p), |c.dag.edges| + 2);
  }

  /** Every enabled action uses up some of the measure, so no run has more actions than it. */
  lemma StepDecreases(c: Config, s: State, a: Action)
    requires c.dag.Valid() && Enabled(c, s, a)
    ensures Measure(c, Step(c, s, a)) < Measure(c, s)
  {
    match a
    case Receive(i) => ReceiveDecreases(c, s, i);
    case Record => RecordDecreases(c, s);
    case DrainNext => DrainDecreases(c, s);
    case Cascade =>
    case EnqueueNext =>
    case Cancel =>
    case _ => MovedDecreases(c, s, a.worker, Apply(c, s, a).workers[a.worker].phase);
  }

  lemma MeasureBounds(c: Config, cancelled: bool, acts: seq<Action>)
    requires c.dag.Valid()
    ensures Measure(c, After(c, cancelled, acts)) >= 0
  {
    var s := After(c, cancelled, acts);
    SlotsBounded(c, cancelled, acts);
    RestNotNegative(|c.dag.nodes| - |s.workers|, |c.dag.edges| + 2);
  }

  lemma RestNotNegative(left: int, extra: nat)
    requires left >= 0
    ensures RestOfNodes(left, extra) >= 0
  {
  }

  /** How many actions of a run really happened. */
  function Moves(c: Config, cancelled: bool, acts: seq<Action>): nat
    requires c.dag.Valid()
  {
    if acts == [] then 0
    else
      var q := acts[..|acts| - 1];
      Moves(c, cancelled, q) + if Enabled(c, After(c, cancelled, q), acts[|acts| - 1]) then 1 else 0
  }

  /** Termination: no run has more than a fixed number of moves, so with `Progress` every run ends. */
  lemma {:induction false} RunsAreBounded(c: Config, cancelled: bool, acts: seq<Action>)
    requires c.dag.Valid()
    ensures Moves(c, cancelled, acts) <= |c.dag.nodes| * (|c.dag.edges| + 11) + 2
  {
    MovesWithin(c, cancelled, acts);
    MeasureBounds(c, cancelled, acts);
  }

  lemma {:induction false} MovesWithin(c: Config, cancelled: bool, acts: seq<Action>)
    requires c.dag.Valid()
    ensures Moves(c, cancelled, acts) + Measure(c, After(c, cancelled, acts)) <= Measure(c, Init(c, cancelled))
  {
    if acts != [] {
      var q := acts[..|acts| - 1];
      MovesWithin(c, cancelled, q);
      if Enabled(c, After(c, cancelled, q), acts[|acts| - 1]) {
        StepDecreases(c, After(c, cancelled, q), acts[|acts| - 1]);
      }
    }
  }

  /** Every uncancelled run can be carried on, uncancelled, until its loop has ended. */
  lemma CarriedOn(c: Config, acts: seq<Action>) returns (more: seq<Action>)
    requires c.dag.Valid() && !After(c, false, acts).cancelled
    ensures FinishedRun(c, acts + more) && !After(c, false, acts + more).cancelled
    decreases Measure(c, After(c, false, acts))
  {
    if FinishedRun(c, acts) {
      more := [];
      assert acts + more == acts;
    } else {
      var s := After(c, false, acts);
      var a := Progress(c, false, acts);
      OneStepMore(c, acts, a);
      more := CarriedOn(c, acts + [a]);
      assert acts + [a] + more == acts + ([a] + more);
      more := [a] + more;
    }
  }

  lemma OneStepMore(c: Config, acts: seq<Action>, a: Action)
    requires c.dag.Valid() && Enabled(c, After(c, false, acts), a) && a != Cancel
    ensures
      var s, s' := After(c, false, acts), After(c, false, acts + [a]);
      0 <= Measure(c, s') < Measure(c, s) && s'.cancelled == s.cancelled
  {
    assert (acts + [a])[..|acts|] == acts;
    StepDecreases(c, After(c, false, acts), a);
    MeasureBounds(c, false, acts + [a]);
  }

  /**
   What a cancelled run recorded before its cancellation: the records at any earlier, uncancelled moment
   are still there at the end, and they are among those of every finished uncancelled run, on an acyclic
   graph among those of the sequential evaluation.
   */
  lemma BeforeCancellation(c: Config, acts: seq<Action>, k: nat, c2: Config, full: seq<Action>)
    requires c.dag.Valid() && k <= |acts| && !After(c, false, acts[..k]).cancelled
    requires c2.dag == c.dag && c2.body == c.body && FinishedRun(c2, full) && !After(c2, false, full).cancelled
    ensures Included(After(c, false, acts[..k]).core.results, After(c, false, acts).core.results)
    ensures Included(After(c, false, acts[..k]).core.results, After(c2, false, full).core.results)
    ensures forall o :: TopoOrder(c.dag, o) ==> Included(After(c, false, acts[..k]).core.results, Sequential(c, o))
  {
    RecordsNeverOverwritten(c, false, acts, k);
    var more := CarriedOn(c, acts[..k]);
    var whole := acts[..k] + more;
    assert whole[..k] == acts[..k];
    RecordsNeverOverwritten(c, false, whole, k);
    RunsAgree(c, whole, c2, full);
    forall o | TopoOrder(c.dag, o) ensures Included(After(c, false, acts[..k]).core.results, Sequential(c, o)) {
      RunsAgreeWithSequential(c, whole, o);
    }
  }

  /** How many results the main loop has taken off the channel. */
  function Receives(c: Config, cancelled: bool, acts: seq<Action>): nat
    requires c.dag.Valid()
  {
    if acts == [] then 0
    else
      var q := acts[..|acts| - 1];
      var a := acts[|acts| - 1];
      Receives(c, cancelled, q) + if a.Receive? && Enabled(c, After(c, cancelled, q), a) then 1 else 0
  }

  /** The loop runs at most once per node. */
  lemma {:induction false} ReceivesBounded(c: Config, cancelled: bool, acts: seq<Action>)
    requires c.dag.Valid()
    ensures Receives(c, cancelled, acts) <= |c.dag.nodes|
  {
    ReceivesCounted(c, cancelled, acts);
    SlotsBounded(c, cancelled, acts);
  }

  lemma {:induction false} ReceivesCounted(c: Config, cancelled: bool, acts: seq<Action>)
    requires c.dag.Valid()
    ensures
      var s := After(c, cancelled, acts);
      Receives(c, cancelled, acts) + Count(s.workers, InFlight) == |s.workers|
  {
    if acts != [] {
      var q, a := acts[..|acts| - 1], acts[|acts| - 1];
      ReceivesCounted(c, cancelled, q);
      if Enabled(c, After(c, cancelled, q), a) {
        UnreceivedStep(c, After(c, cancelled, q), a);
      }
    }
  }

  /** Dispatching adds an unreceived worker, receiving removes one, nothing else changes their number. */
  lemma UnreceivedStep(c: Config, s: State, a: Action)
    requires c.dag.Valid() && Enabled(c, s, a)
    ensures
      var s' := Apply(c, s, a);
      |s'.workers| - Count(s'.workers, InFlight) ==
      |s.workers| - Count(s.workers, InFlight) + if a.Receive? then 1 else 0
  {
    match a
    case DrainNext =>
      if s.core.ready != [] {
        CountAppend(s.workers, Worker(s.core.ready[0], Waiting), InFlight);
      }
    case Record =>
      CountUpdate(s.workers, s.pc.worker, Apply(c, s, a).workers[s.pc.worker], InFlight);
    case Cascade =>
    case EnqueueNext =>
    case Cancel =>
    case _ => UnreceivedMove(c, s, a);
  }

  lemma UnreceivedMove(c: Config, s: State, a: Action)
    requires c.dag.Valid() && Enabled(c, s, a)
    requires !a.Record? && !a.DrainNext? && !a.Cascade? && !a.EnqueueNext? && !a.Cancel?
    ensures
      var s' := Apply(c, s, a);
      |s'.workers| == |s.workers| &&
      Count(s'.workers, InFlight) == Count(s.workers, InFlight) - if a.Receive? then 1 else 0
  {
    CountUpdate(s.workers, a.worker, Apply(c, s, a).workers[a.worker], InFlight);
  }

  // --- the status of the run --------------------------------------------------------------

  datatype RunStatus = RunSuccess | RunFailed | RunPartial

  /** What the reduction of the records to one status means. */
  ghost predicate Aggregates(results: map<Id, NodeResult>, st: RunStatus)
  {
    && (st.RunFailed? <==> exists n :: FailedAt(results, n))
    && (st.RunSuccess? <==> forall n :: n in results ==> results[n].status == Success)
  }

  /** The loop of `aggregateStatus`, in whatever order the map is walked. */
  method AggregateStatus(results: map<Id, NodeResult>) returns (st: RunStatus)
    ensures Aggregates(results, st)
  {
    if |results| == 0 {
      return RunSuccess;
    }
    var hasFailed, hasSkipped := false, false;
    var keys := results.Keys;
    while keys != {}
      invariant keys <= results.Keys
      invariant hasFailed <==> exists n :: n !in keys && FailedAt(results, n)
      invariant hasSkipped <==> exists n :: n in results && n !in keys && results[n].status == Skipped
      decreases keys
    {
      var k :| k in keys;
      match results[k].status {
        case Failed => hasFailed := true;
        case Skipped => hasSkipped := true;
        case Success =>
      }
      keys := keys - {k};
    }
    forall n | n in results ensures results[n].status == Success || hasFailed || hasSkipped {
      assert FailedAt(results, n) <==> results[n].status == Failed;
    }
    st := if hasFailed then RunFailed else if hasSkipped then RunPartial else RunSuccess;
  }

  /** `Execute` returns an error exactly when the status is failed, that is, when some node failed. */
  lemma ErrorIffFailed(c: Config, cancelled: bool, acts: seq<Action>, st: RunStatus)
    requires c.dag.Valid() && Aggregates(After(c, cancelled, acts).core.results, st)
    ensures
      var core := After(c, cancelled, acts).core;
      && (core.firstErr.Some? <==> st == RunFailed)
      && (core.firstErr.Some? ==> FailedAt(core.results, core.firstErr.value))
  {
    Always(c, cancelled, acts);
    var s := After(c, cancelled, acts);
    if s.pc.Aborted? {
      assert forall n :: !FailedAt(s.core.results, n);
    }
  }

  // --- what success means -------------------------------------------------------------------

  predicate SucceededAt(results: map<Id, NodeResult>, n: Id)
  {
    n in results && results[n].status == Success
  }

  /** The status of a finished run is success exactly when every node that Kahn's loop emits succeeded. */
  lemma SuccessMeansEmitted(c: Config, acts: seq<Action>, o: seq<Id>, st: RunStatus)
    requires c.dag.Valid() && FinishedRun(c, acts) && KahnOrder(c.dag, o)
    requires Aggregates(After(c, false, acts).core.results, st)
    ensures st.RunSuccess? <==> forall n :: n in o ==> SucceededAt(After(c, false, acts).core.results, n)
  {
    ExactlyOnce(c, acts, o);
    RunFailuresEmitted(c, acts, o);
    SuccessOver(c.dag, After(c, false, acts).core.results, o, st);
  }

  lemma SuccessOver(d: Dag, results: map<Id, NodeResult>, o: seq<Id>, st: RunStatus)
    requires forall n :: n in results <==> n in o || BelowFailure(d, results, n)
    requires (forall f :: FailedAt(results, f) ==> f in o) && Aggregates(results, st)
    ensures st.RunSuccess? <==> forall n :: n in o ==> SucceededAt(results, n)
  {
    if forall n :: n in o ==> SucceededAt(results, n) {
      forall f ensures !FailedAt(results, f) {
        assert f in o ==> SucceededAt(results, f);
      }
      forall n | n in results ensures results[n].status == Success {
        assert n in o || BelowFailure(d, results, n);
        assert SucceededAt(results, n);
      }
    }
    if st.RunSuccess? {
      forall n | n in o ensures SucceededAt(results, n) {
        assert n in results <==> n in o || BelowFailure(d, results, n);
      }
    }
  }

  lemma RunFailuresEmitted(c: Config, acts: seq<Action>, o: seq<Id>)
    requires c.dag.Valid() && FinishedRun(c, acts) && KahnOrder(c.dag, o)
    ensures forall f :: FailedAt(After(c, false, acts).core.results, f) ==> f in o
  {
    RunFinished(c, acts);
    forall f | FailedAt(After(c, false, acts).core.results, f) ensures f in o {
      FailureEmitted(c, After(c, false, acts), o, f);
    }
  }

  /** On an acyclic graph success means that every node of the graph succeeded. */
  lemma SuccessIffAllSucceeded(c: Config, acts: seq<Action>, o: seq<Id>, st: RunStatus)
    requires c.dag.Valid() && FinishedRun(c, acts) && TopoOrder(c.dag, o)
    requires Aggregates(After(c, false, acts).core.results, st)
    ensures st.RunSuccess? <==> forall n :: n in c.dag.Ids() ==> SucceededAt(After(c, false, acts).core.results, n)
  {
    SuccessMeansEmitted(c, acts, o, st);
  }

  /** A successful run has recorded every node exactly when the graph is acyclic. */
  lemma SuccessCoversIffAcyclic(c: Config, acts: seq<Action>, o: seq<Id>, st: RunStatus)
    requires c.dag.Valid() && FinishedRun(c, acts) && KahnOrder(c.dag, o)
    requires Aggregates(After(c, false, acts).core.results, st) && st.RunSuccess?
    ensures After(c, false, acts).core.results.Keys == c.dag.Ids() <==> Acyclic(c.dag)
  {
    var results := After(c, false, acts).core.results;
    ExactlyOnce(c, acts, o);
    CompleteIffAcyclic(c.dag, o);
    forall n ensures n in results <==> n in o {
      assert n in results <==> n in o || BelowFailure(c.dag, results, n);
    }
  }

  /**
   The failing input of the unconditional claim: on a valid graph in which every node has a predecessor
   nothing is ever dispatched, and the empty run counts as a success without an error.
   */
  lemma EmptyRunSucceeds(c: Config, acts: seq<Action>, st: RunStatus)
    requires c.dag.Valid() && FinishedRun(c, acts)
    requires forall n :: n in c.dag.Ids() ==> Predecessors(c.dag.edges, n) != []
    requires Aggregates(After(c, false, acts).core.results, st)
    ensures After(c, false, acts).core.results == map[] && st.RunSuccess? && After(c, false, acts).core.firstErr.None?
  {
    NothingEmitted(c.dag);
    SuccessMeansEmitted(c, acts, [], st);
    ErrorIffFailed(c, false, acts, st);
    ExactlyOnce(c, acts, []);
    NoRecords(c.dag, After(c, false, acts).core.results);
  }

  lemma NoRecords(d: Dag, results: map<Id, NodeResult>)
    requires forall n :: n in results <==> n in [] || BelowFailure(d, results, n)
    requires forall f :: !FailedAt(results, f)
    ensures results == map[]
  {
    forall n ensures n !in results {
      assert n in results <==> n in [] || BelowFailure(d, results, n);
    }
  }

  lemma NothingEmitted(d: Dag)
    requires forall n :: n in d.Ids() ==> Predecessors(d.edges, n) != []
    ensures KahnOrder(d, [])
  {
    forall n | n in d.Ids() ensures Waits(d, [], n) {
      PredecessorsExact(d, n);
      assert Predecessors(d.edges, n)[0] in Predecessors(d.edges, n);
    }
  }

  const CYCLE := Dag([Node("a", "t", "", NoBytes, None), Node("b", "t", "", NoBytes, None)],
                     [Edge("", "a", "", "b", ""), Edge("", "b", "", "a", "")])

  /** A graph without roots ends its run with the one action of finding the queue empty. */
  lemma RootlessEnds(c: Config)
    requires c.dag.Valid() && forall n :: n in c.dag.Ids() ==> Predecessors(c.dag.edges, n) != []
    ensures FinishedRun(c, [DrainNext])
  {
    RootlessQueue(c.dag);
    OnlyAction(c, DrainNext);
  }

  lemma RootlessQueue(d: Dag)
    requires d.Valid() && forall n :: n in d.Ids() ==> Predecessors(d.edges, n) != []
    ensures InitialReady(d) == []
  {
    InitialReadyExact(d);
    if InitialReady(d) != [] {
      HeadIn(InitialReady(d));
    }
  }

  lemma OnlyAction(c: Config, a: Action)
    requires c.dag.Valid()
    ensures After(c, false, [a]) == Step(c, Init(c, false), a)
  {
    assert [a][..0] == [];
  }

  /** Such a graph and such a run exist: two nodes in a cycle. */
  lemma CycleRunsEmpty(c: Config)
    requires c.dag == CYCLE
    ensures c.dag.Valid() && c.dag.Ids() == {"a", "b"} && !Acyclic(c.dag)
    ensures forall n :: n in c.dag.Ids() ==> Predecessors(c.dag.edges, n) != []
    ensures FinishedRun(c, [DrainNext])
  {
    CycleValid();
    CyclePredecessors();
    CycleReaches();
    RootlessEnds(c);
  }

  lemma CycleValid()
    ensures CYCLE.Valid() && CYCLE.Ids() == {"a", "b"}
  {
    assert CYCLE.nodes[0] in CYCLE.nodes && CYCLE.nodes[1] in CYCLE.nodes;
    assert "a"[0] != "b"[0];
  }

  lemma CycleReaches()
    ensures !Acyclic(CYCLE)
  {
    assert CYCLE.edges[0] in CYCLE.edges && CYCLE.edges[1] in CYCLE.edges;
    EdgeReaches(CYCLE, "a", "b");
    EdgeReaches(CYCLE, "b", "a");
    ReachesTransitive(CYCLE, "a", "b", "a");
  }

  lemma CyclePredecessors()
    ensures Predecessors(CYCLE.edges, "a") == ["b"] && Predecessors(CYCLE.edges, "b") == ["a"]
  {
    assert CYCLE.edges[..1] == [CYCLE.edges[0]];
    assert "a"[0] != "b"[0];
  }
}
