/**
 The whole of `Execute`: validation, the registry check, the early-cancel branch and the scheduler
 loop.  Each turn of the loop is matched by a run of the transition system, so the theorems about
 all interleavings apply to what the method returns.
 */
module Execute {
  import opened Wrappers
  import opened Ordering
  import opened Graph
  import opened TopoSort
  import opened Closure
  import opened Engine
  import opened EngineInvariant
  import opened EngineSteps
  import opened Confluence
  import opened EngineSafety
  import opened Scheduler
  import opened SubDag

  // --- the context --------------------------------------------------------------------------

  /**
   How the run's context stands around one node: whether its worker finds it cancelled when looking
   before the body, whether it is cancelled when the body returns, and what the body then returns.
   */
  datatype Disturbance = Disturbance(early: bool, late: bool, outcome: Outcome)
  {
    predicate Cancels()
    {
      early || late
    }
  }

  /** The disturbance around the k-th node to report. */
  type Course = nat -> Disturbance

  ghost predicate Undisturbed(course: Course)
  {
    forall k :: !course(k).Cancels()
  }

  /** The result of a worker whose node has no record yet. */
  function WorkerResult(c: Config, payloads: map<Id, Payload>, n: Id, x: Disturbance): NodeResult
  {
    if x.early then SkippedFor(n, Cancelled)
    else if x.late then ClassifyCancelled(n, x.outcome)
    else NodeOutcome(c, payloads, n)
  }

  // --- extending runs -----------------------------------------------------------------------

  lemma AfterOne(c: Config, acts: seq<Action>, a: Action)
    requires c.dag.Valid()
    ensures After(c, false, acts + [a]) == Step(c, After(c, false, acts), a)
  {
    assert (acts + [a])[..|acts|] == acts;
  }

  /** Between two turns of the serial driver: every worker is either waiting or gone. */
  ghost predicate Quiet(s: State)
  {
    && s.pc.Receiving?
    && forall i :: 0 <= i < |s.workers| ==> s.workers[i].phase.Waiting? || s.workers[i].phase.Gone?
  }

  lemma {:induction false} NoSlots(ws: seq<Worker>)
    requires forall i :: 0 <= i < |ws| ==> ws[i].phase.Waiting? || ws[i].phase.Gone?
    ensures Count(ws, HoldsSlot) == 0
  {
    if ws != [] {
      NoSlots(ws[..|ws| - 1]);
    }
  }

  /** A worker gets its slot and looks whether anything is in its way. */
  lemma SlotTaken(c: Config, acts: seq<Action>, i: nat, early: bool) returns (acts': seq<Action>)
    requires c.dag.Valid() && Quiet(After(c, false, acts)) && (After(c, false, acts).cancelled ==> early)
    requires i < |After(c, false, acts).workers| && After(c, false, acts).workers[i].phase.Waiting?
    requires After(c, false, acts).workers[i].node !in After(c, false, acts).core.completed
    ensures
      var s := After(c, false, acts);
      After(c, false, acts') == Moved(s.(cancelled := early), i,
        if early then Phase.Finished(SkippedFor(s.workers[i].node, Cancelled)) else Checked)
  {
    var s := After(c, false, acts);
    NoSlots(s.workers);
    AfterOne(c, acts, Acquire(i));
    acts' := acts + [Acquire(i)];
    if early && !s.cancelled {
      AfterOne(c, acts', Cancel);
      acts' := acts' + [Cancel];
    }
    assert After(c, false, acts') == Moved(s.(cancelled := early), i, Holding);
    AfterOne(c, acts', Check(i));
    acts' := acts' + [Check(i)];
    MoveTwice(s.(cancelled := early), i, Holding,
              if early then Phase.Finished(SkippedFor(s.workers[i].node, Cancelled)) else Checked);
  }

  /** It reads its inputs and runs its body, during which the context may be cancelled. */
  lemma BodyRuns(c: Config, acts: seq<Action>, i: nat, late: bool, o: Outcome) returns (acts': seq<Action>)
    requires c.dag.Valid() && !After(c, false, acts).cancelled
    requires i < |After(c, false, acts).workers| && After(c, false, acts).workers[i].phase.Checked?
    ensures
      var s := After(c, false, acts);
      var n := s.workers[i].node;
      After(c, false, acts') == Moved(s.(cancelled := late), i,
        Phase.Finished(if late then ClassifyCancelled(n, o) else NodeOutcome(c, s.core.payloads, n)))
  {
    var s := After(c, false, acts);
    var inputs := InputsFor(c.dag, s.core.payloads, s.workers[i].node);
    AfterOne(c, acts, Build(i));
    acts' := acts + [Build(i)];
    if late {
      AfterOne(c, acts', Cancel);
      acts' := acts' + [Cancel];
    }
    acts' := BodyReturns(c, acts', i, s.(cancelled := late), inputs,
                         if late then o else Run(c, s.workers[i].node, inputs));
  }

  /** The body returns and its outcome is classified. */
  lemma BodyReturns(c: Config, acts: seq<Action>, i: nat, s: State, inputs: map<string, Input>, o: Outcome)
    returns (acts': seq<Action>)
    requires c.dag.Valid() && i < |s.workers| && After(c, false, acts) == Moved(s, i, Phase.Running(inputs))
    requires s.cancelled || o == Run(c, s.workers[i].node, inputs)
    ensures
      var n := s.workers[i].node;
      After(c, false, acts') ==
      Moved(s, i, Phase.Finished(if s.cancelled then ClassifyCancelled(n, o) else Classify(n, o)))
  {
    var n := s.workers[i].node;
    AfterOne(c, acts, Finish(i, o));
    acts' := acts + [Finish(i, o)];
    MoveTwice(s, i, Phase.Running(inputs),
              Phase.Finished(if s.cancelled then ClassifyCancelled(n, o) else Classify(n, o)));
  }

  lemma MoveTwice(s: State, i: nat, p: Phase, q: Phase)
    requires i < |s.workers|
    ensures Moved(Moved(s, i, p), i, q) == Moved(s, i, q)
  {
    assert s.workers[i := s.workers[i].(phase := p)][i := s.workers[i].(phase := q)] ==
           s.workers[i := s.workers[i].(phase := q)];
  }

  /** The main loop walks the successors of the node it has recorded. */
  lemma {:induction false} ChildrenEnqueued(c: Config, acts: seq<Action>) returns (acts': seq<Action>)
    requires c.dag.Valid() && After(c, false, acts).pc.Enqueuing?
    ensures
      var s := After(c, false, acts);
      After(c, false, acts') == s.(core := EnqueuedAll(s.core, s.pc.rest), pc := Draining)
    decreases |After(c, false, acts).pc.rest|
  {
    AfterOne(c, acts, EnqueueNext);
    acts' := acts + [EnqueueNext];
    if After(c, false, acts).pc.rest != [] {
      acts' := ChildrenEnqueued(c, acts');
    }
  }

  function Spawned(nodes: seq<Id>): seq<Worker>
  {
    seq(|nodes|, i requires 0 <= i < |nodes| => Worker(nodes[i], Waiting))
  }

  lemma SpawnedHead(ws: seq<Worker>, ready: seq<Id>)
    requires ready != []
    ensures ws + [Worker(ready[0], Waiting)] + Spawned(ready[1..]) == ws + Spawned(ready)
  {
  }

  /** The main loop dispatches the whole queue. */
  lemma {:induction false} QueueDrained(c: Config, acts: seq<Action>) returns (acts': seq<Action>)
    requires c.dag.Valid() && After(c, false, acts).pc.Draining?
    ensures
      var s := After(c, false, acts);
      After(c, false, acts') ==
      s.(core := Drained(s.core), workers := s.workers + Spawned(s.core.ready), pc := Receiving)
    decreases |After(c, false, acts).core.ready|
  {
    var s := After(c, false, acts);
    AfterOne(c, acts, DrainNext);
    acts' := acts + [DrainNext];
    if s.core.ready != [] {
      acts' := QueueDrained(c, acts');
      SpawnedHead(s.workers, s.core.ready);
    } else {
      assert s.workers + Spawned([]) == s.workers;
    }
  }

  /** The main loop takes an offered result off the channel and records it. */
  lemma ResultRecorded(c: Config, acts: seq<Action>, i: nat, res: NodeResult) returns (acts': seq<Action>)
    requires c.dag.Valid() && After(c, false, acts).pc.Receiving?
    requires PhaseOf(After(c, false, acts), i) == Phase.Finished(res)
    ensures
      var s := After(c, false, acts);
      After(c, false, acts') == Moved(s, i, Releasing).(
        core := Filed(Taken(s.core), res),
        pc := if res.status == Failed then Cascading(res.id) else Enqueuing(Successors(c.dag.edges, res.id)))
  {
    var s := After(c, false, acts);
    AfterOne(c, acts, Receive(i));
    acts' := acts + [Receive(i)];
    AfterOne(c, acts', Record);
    acts' := acts' + [Record];
    MoveTwice(s, i, Delivered(res), Releasing);
  }

  /** The main loop takes an offered result, records it, cascades, enqueues. */
  lemma ResultHandled(c: Config, acts: seq<Action>, i: nat, res: NodeResult) returns (acts': seq<Action>)
    requires c.dag.Valid() && After(c, false, acts).pc.Receiving?
    requires PhaseOf(After(c, false, acts), i) == Phase.Finished(res)
    ensures
      var s := After(c, false, acts);
      After(c, false, acts') ==
      Moved(s, i, Releasing).(core := NodeDone(c.dag, Noted(Taken(s.core), res), res), pc := Draining)
  {
    acts' := ResultRecorded(c, acts, i, res);
    if res.status == Failed {
      AfterOne(c, acts', Cascade);
      acts' := acts' + [Cascade];
    }
    acts' := ChildrenEnqueued(c, acts');
  }

  /** The core after one turn of the loop. */
  function TurnCore(c: Config, core: Core, res: NodeResult): Core
    requires c.dag.Valid()
  {
    NodeDone(c.dag, Noted(Taken(core), res), res)
  }

  /** A waiting worker runs its node and offers the result. */
  lemma WorkerReports(c: Config, acts: seq<Action>, i: nat, x: Disturbance) returns (acts': seq<Action>)
    requires c.dag.Valid() && Quiet(After(c, false, acts)) && (After(c, false, acts).cancelled ==> x.early)
    requires i < |After(c, false, acts).workers| && After(c, false, acts).workers[i].phase.Waiting?
    ensures
      var s := After(c, false, acts);
      After(c, false, acts') == Moved(s.(cancelled := x.Cancels()), i,
        Phase.Finished(WorkerResult(c, s.core.payloads, s.workers[i].node, x)))
  {
    var s := After(c, false, acts);
    Always(c, false, acts);
    NotYetCompleted(c, s, i);
    acts' := SlotTaken(c, acts, i, x.early);
    if !x.early {
      MoveTwice(s.(cancelled := x.late), i, Checked,
                Phase.Finished(WorkerResult(c, s.core.payloads, s.workers[i].node, x)));
      acts' := BodyRuns(c, acts', i, x.late, x.outcome);
    }
  }

  /** One turn of the serial driver is a run of the transition system. */
  lemma Turn(c: Config, acts: seq<Action>, i: nat, x: Disturbance) returns (acts': seq<Action>)
    requires c.dag.Valid() && Quiet(After(c, false, acts)) && (After(c, false, acts).cancelled ==> x.early)
    requires i < |After(c, false, acts).workers| && After(c, false, acts).workers[i].phase.Waiting?
    ensures
      var s := After(c, false, acts);
      var core' := TurnCore(c, s.core, WorkerResult(c, s.core.payloads, s.workers[i].node, x));
      After(c, false, acts') ==
      State(Drained(core'), TurnWorkers(s.workers, i, core'.ready), x.Cancels(), Receiving)
  {
    var s := After(c, false, acts);
    var t := s.(cancelled := x.Cancels());
    var res := WorkerResult(c, s.core.payloads, s.workers[i].node, x);
    acts' := WorkerReports(c, acts, i, x);
    acts' := ResultHandled(c, acts', i, res);
    MoveTwice(t, i, Phase.Finished(res), Releasing);
    acts' := WorkerLeaves(c, acts', i, t, TurnCore(c, s.core, res));
  }

  /** The worker gives its slot back, and what became ready is dispatched. */
  lemma WorkerLeaves(c: Config, acts: seq<Action>, i: nat, t: State, core: Core) returns (acts': seq<Action>)
    requires c.dag.Valid() && i < |t.workers|
    requires After(c, false, acts) == Moved(t, i, Releasing).(core := core, pc := Draining)
    ensures
      After(c, false, acts') == State(Drained(core), TurnWorkers(t.workers, i, core.ready), t.cancelled, Receiving)
  {
    AfterOne(c, acts, Release(i));
    MoveTwice(t, i, Releasing, Gone);
    acts' := acts + [Release(i)];
    acts' := QueueDrained(c, acts');
  }

  // --- the method ---------------------------------------------------------------------------

  /** The loop of `runOneNode` over the predecessors, then the reserved keys. */
  method BuildInputs(d: Dag, payloads: map<Id, Payload>, n: Id) returns (inputs: map<string, Input>)
    ensures inputs == InputsFor(d, payloads, n)
  {
    var preds := PredecessorsOf(d, n);
    inputs := map[];
    for i := 0 to |preds|
      invariant inputs == map p | p in preds[..i] && p in payloads :: FromNode(payloads[p])
    {
      assert forall p :: p in preds[..i + 1] <==> p in preds[..i] || p == preds[i];
      if preds[i] in payloads {
        inputs := inputs[preds[i] := FromNode(payloads[preds[i]])];
      }
    }
    assert preds[..|preds|] == preds;
    var def := Definition(d, n);
    inputs := inputs + map["_params" := OwnParams(def.params), "_type" := OwnText(def.typ),
                           "_subtype" := OwnText(def.subtype), "_id" := OwnText(def.id)];
  }

  /** Only the inputs built meet their description. */
  lemma InputsDescribed(c: Config, payloads: map<Id, Payload>, n: Id, inputs: map<string, Input>)
    requires inputs == InputsFor(c.dag, payloads, n)
    ensures c.dag.Valid() ==> forall def, other ::
      def in c.dag.nodes && def.id == n && InputsFrom(c.dag, payloads, n, other) ==>
        other == inputs && Definition(c.dag, n) == def
  {
    if c.dag.Valid() {
      InputsForFrom(c.dag, payloads, n);
      forall def, other | def in c.dag.nodes && def.id == n && InputsFrom(c.dag, payloads, n, other)
        ensures other == inputs && Definition(c.dag, n) == def
      {
        InputsFromUnique(c.dag, payloads, def, other, inputs);
        DefinitionOfNode(c.dag, def);
      }
    }
  }

  /** `runOneNode`: the look at itself, the look at the context, inputs, body, classification. */
  method RunOneNode(c: Config, completed: map<Id, Status>, payloads: map<Id, Payload>, n: Id, x: Disturbance)
    returns (res: NodeResult)
    ensures n in completed ==> res.id == n && res.status == completed[n] && res.payload.None? && res.error == ""
    ensures n in completed ==> res.reason == if completed[n] == Skipped then UpstreamFailed else NoReason
    ensures n !in completed ==> res == WorkerResult(c, payloads, n, x)
    ensures n !in completed && x.early ==> res == NodeResult(n, Skipped, Cancelled, None, "")
    ensures c.dag.Valid() && n !in completed && !x.early ==>
      forall def, inputs :: def in c.dag.nodes && def.id == n && InputsFrom(c.dag, payloads, n, inputs) ==>
        Becomes(n, if x.late then x.outcome else c.body(def.typ, def.subtype, inputs), x.late, res)
  {
    if n in completed {
      return NodeResult(n, completed[n], if completed[n] == Skipped then UpstreamFailed else NoReason, None, "");
    }
    if x.early {
      return SkippedFor(n, Cancelled);
    }
    var inputs := BuildInputs(c.dag, payloads, n);
    InputsDescribed(c, payloads, n, inputs);
    var def := Definition(c.dag, n);
    var out := if x.late then x.outcome else c.body(def.typ, def.subtype, inputs);
    match out
    case Returns(payload) =>
      res := NodeResult(n, Success, NoReason, payload, "");
    case Panics(message) =>
      res := NodeResult(n, Failed, NoReason, None, message);
    case ErrsCancelled =>
      res := SkippedFor(n, Cancelled);
    case Errs(error) =>
      res := if x.late then SkippedFor(n, Cancelled) else NodeResult(n, Failed, NoReason, None, error);
  }

  datatype Execution =
    | Rejected(defect: Defect)
    | UnknownType(node: nat)
    | Ran(results: map<Id, NodeResult>, status: RunStatus, error: Option<Id>)

  predicate Registered(registered: (string, string) -> bool, n: Node)
  {
    registered(n.typ, n.subtype)
  }

  /** The workers still waiting, as indices. */
  ghost predicate Open(s: State, open: set<nat>)
  {
    forall i: nat :: i in open <==> i < |s.workers| && s.workers[i].phase.Waiting?
  }

  function Indices(lo: nat, hi: nat): (r: set<nat>)
    requires lo <= hi
    ensures forall j: nat :: j in r <==> lo <= j < hi
    decreases hi - lo
  {
    if lo == hi then {} else {lo} + Indices(lo + 1, hi)
  }

  predicate IsGone(p: Phase)
  {
    p.Gone?
  }

  lemma {:induction false} CountLimits(ws: seq<Worker>, p: Phase -> bool)
    ensures Count(ws, p) <= |ws|
  {
    if ws != [] {
      CountLimits(ws[..|ws| - 1], p);
    }
  }

  lemma {:induction false} CountSpawned(ws: seq<Worker>, nodes: seq<Id>)
    ensures Count(ws + Spawned(nodes), IsGone) == Count(ws, IsGone)
  {
    if nodes == [] {
      assert ws + Spawned([]) == ws;
    } else {
      var q := nodes[..|nodes| - 1];
      CountSpawned(ws, q);
      assert (ws + Spawned(nodes))[..|ws| + |q|] == ws + Spawned(q);
    }
  }

  /** Each turn retires one worker, and no more workers than nodes are ever dispatched. */
  lemma TurnShrinks(c: Config, acts: seq<Action>, i: nat, acts': seq<Action>, more: seq<Id>)
    requires c.dag.Valid()
    requires i < |After(c, false, acts).workers| && After(c, false, acts).workers[i].phase.Waiting?
    requires After(c, false, acts').workers == TurnWorkers(After(c, false, acts).workers, i, more)
    ensures Count(After(c, false, acts').workers, IsGone) == Count(After(c, false, acts).workers, IsGone) + 1
    ensures Count(After(c, false, acts').workers, IsGone) <= |c.dag.nodes|
  {
    var ws := After(c, false, acts).workers;
    CountUpdate(ws, i, Worker(ws[i].node, Gone), IsGone);
    CountSpawned(ws[i := Worker(ws[i].node, Gone)], more);
    SlotsBounded(c, false, acts');
    CountLimits(After(c, false, acts').workers, IsGone);
  }

  /** While results are outstanding some worker waits. */
  lemma SomeoneWaits(c: Config, acts: seq<Action>, open: set<nat>)
    requires c.dag.Valid() && Quiet(After(c, false, acts)) && Open(After(c, false, acts), open)
    requires After(c, false, acts).core.inFlight > 0
    ensures exists i :: i in open
  {
    var s := After(c, false, acts);
    SlotsBounded(c, false, acts);
    var i := CountPositive(s.workers, InFlight);
    assert i in open;
  }

  /** The first dispatch: every root gets a worker. */
  lemma FirstDispatch(c: Config) returns (acts: seq<Action>)
    requires c.dag.Valid()
    ensures
      var core := InitialCore(c.dag);
      After(c, false, acts) == State(Drained(core), Spawned(core.ready), false, Receiving)
  {
    acts := QueueDrained(c, []);
    assert [] + Spawned(InitialCore(c.dag).ready) == Spawned(InitialCore(c.dag).ready);
  }

  /** The index of the first node whose type is not registered. */
  method FirstUnknown(d: Dag, registered: (string, string) -> bool) returns (r: Option<nat>)
    ensures r.None? <==> forall i :: 0 <= i < |d.nodes| ==> Registered(registered, d.nodes[i])
    ensures r.Some? ==> r.value < |d.nodes| && !Registered(registered, d.nodes[r.value])
    ensures r.Some? ==> forall i :: 0 <= i < r.value ==> Registered(registered, d.nodes[i])
  {
    for i := 0 to |d.nodes|
      invariant forall k :: 0 <= k < i ==> Registered(registered, d.nodes[k])
    {
      if !registered(d.nodes[i].typ, d.nodes[i].subtype) {
        return Some(i);
      }
    }
    r := None;
  }

  /** The object, the dispatched nodes and the waiting indices mirror a state of the transition system. */
  ghost predicate Mirrors(c: Config, loop: Loop, nodes: seq<Id>, open: set<nat>, s: State)
    reads loop
  {
    && loop.Valid() && loop.dag == c.dag
    && Quiet(s) && s.core == loop.View() && Nodes(s.workers) == nodes && Open(s, open)
  }

  function TurnWorkers(ws: seq<Worker>, i: nat, more: seq<Id>): seq<Worker>
    requires i < |ws|
  {
    ws[i := Worker(ws[i].node, Gone)] + Spawned(more)
  }

  lemma WorkerAt(ws: seq<Worker>, i: nat, more: seq<Id>, j: nat)
    requires i < |ws| && j < |ws| + |more|
    ensures TurnWorkers(ws, i, more)[j] ==
      if j == i then Worker(ws[i].node, Gone) else if j < |ws| then ws[j] else Worker(more[j - |ws|], Waiting)
  {
  }

  lemma TurnNodes(ws: seq<Worker>, i: nat, more: seq<Id>)
    requires i < |ws|
    ensures Nodes(TurnWorkers(ws, i, more)) == Nodes(ws) + more
  {
    forall j | 0 <= j < |ws| + |more| ensures Nodes(TurnWorkers(ws, i, more))[j] == (Nodes(ws) + more)[j] {
      WorkerAt(ws, i, more, j);
    }
  }

  lemma TurnQuiet(s: State, open: set<nat>, i: nat, more: seq<Id>, s': State)
    requires Quiet(s) && Open(s, open) && i in open
    requires s'.workers == TurnWorkers(s.workers, i, more) && s'.pc.Receiving?
    ensures Quiet(s') && Open(s', (open - {i}) + Indices(|s.workers|, |s.workers| + |more|))
  {
    forall j: nat | j < |s'.workers|
      ensures s'.workers[j].phase.Waiting? || s'.workers[j].phase.Gone?
      ensures j in (open - {i}) + Indices(|s.workers|, |s.workers| + |more|) <==> s'.workers[j].phase.Waiting?
    {
      WorkerAt(s.workers, i, more, j);
    }
  }

  /** One turn of the scheduler loop: a result is taken, recorded, and what became ready is dispatched. */
  method TakeTurn(c: Config, loop: Loop, nodes: seq<Id>, open: set<nat>, i: nat, x: Disturbance,
                  ghost acts: seq<Action>)
    returns (more: seq<Id>, ghost acts': seq<Action>)
    requires c.dag.Valid() && Mirrors(c, loop, nodes, open, After(c, false, acts)) && i in open
    requires After(c, false, acts).cancelled ==> x.early
    modifies loop
    ensures Mirrors(c, loop, nodes + more, (open - {i}) + Indices(|nodes|, |nodes| + |more|), After(c, false, acts'))
    ensures After(c, false, acts').cancelled == x.Cancels()
    ensures Count(After(c, false, acts').workers, IsGone) == Count(After(c, false, acts).workers, IsGone) + 1
    ensures Count(After(c, false, acts').workers, IsGone) <= |c.dag.nodes|
  {
    ghost var s := After(c, false, acts);
    assert nodes[i] == s.workers[i].node;
    OpenNotCompleted(c, acts, i);
    var res := RunOneNode(c, loop.completed, loop.payloads, nodes[i], x);
    loop.Accept(res);
    assert loop.View() == TurnCore(c, s.core, res);
    more := loop.DrainReady();
    acts' := Turn(c, acts, i, x);
    TurnShrinks(c, acts, i, acts', more);
    TurnQuiet(s, open, i, more, After(c, false, acts'));
    TurnNodes(s.workers, i, more);
  }

  lemma OpenNotCompleted(c: Config, acts: seq<Action>, i: nat)
    requires c.dag.Valid() && Quiet(After(c, false, acts))
    requires i < |After(c, false, acts).workers| && After(c, false, acts).workers[i].phase.Waiting?
    ensures After(c, false, acts).workers[i].node !in After(c, false, acts).core.completed
  {
    Always(c, false, acts);
    NotYetCompleted(c, After(c, false, acts), i);
  }

  /** A finished run with these records and this first failure, uncancelled when the course is. */
  ghost predicate Leaves(c: Config, course: Course, acts: seq<Action>, results: map<Id, NodeResult>,
                         firstErr: Option<Id>)
    requires c.dag.Valid()
  {
    && FinishedRun(c, acts) && (Undisturbed(course) ==> !After(c, false, acts).cancelled)
    && results == After(c, false, acts).core.results && firstErr == After(c, false, acts).core.firstErr
  }

  /** The scheduler loop: dispatch, then take the results in whatever order they come. */
  method RunLoop(c: Config, course: Course) returns (results: map<Id, NodeResult>, firstErr: Option<Id>)
    requires c.dag.Valid()
    ensures exists acts: seq<Action> :: Leaves(c, course, acts, results, firstErr)
  {
    var loop := new Loop(c.dag);
    var nodes := loop.DrainReady();
    ghost var acts := FirstDispatch(c);
    var open, turn, cancelled := Indices(0, |nodes|), 0, false;
    while loop.inFlight > 0
      invariant Mirrors(c, loop, nodes, open, After(c, false, acts))
      invariant After(c, false, acts).cancelled == cancelled && (Undisturbed(course) ==> !cancelled)
      invariant fresh(loop)
      decreases |c.dag.nodes| - Count(After(c, false, acts).workers, IsGone)
    {
      SomeoneWaits(c, acts, open);
      var i :| i in open;
      var x := course(turn);
      if cancelled {
        x := x.(early := true);
      }
      var more;
      more, acts := TakeTurn(c, loop, nodes, open, i, x, acts);
      open := (open - {i}) + Indices(|nodes|, |nodes| + |more|);
      nodes, turn, cancelled := nodes + more, turn + 1, x.Cancels();
    }
    results, firstErr := loop.results, loop.firstErr;
    SlotsBounded(c, false, acts);
    assert Leaves(c, course, acts, results, firstErr);
  }

  /**
   `Execute`.  An invalid graph or an unregistered type is refused; a context cancelled before the
   start skips every node; otherwise the records are those of a run, whenever the context may be
   cancelled during it: on an acyclic graph one for every node, and in an undisturbed run those of the
   evaluation in topological order.  An error is returned exactly when some node failed.
   */
  method ExecuteDag(c: Config, registered: (string, string) -> bool, cancelled: bool, course: Course)
    returns (r: Execution)
    ensures r.Rejected? <==> !c.dag.Valid()
    ensures r.Rejected? ==> Exhibits(c.dag, r.defect)
    ensures r.UnknownType? ==> r.node < |c.dag.nodes| && !Registered(registered, c.dag.nodes[r.node])
    ensures r.UnknownType? ==> forall i :: 0 <= i < r.node ==> Registered(registered, c.dag.nodes[i])
    ensures r.Ran? ==> forall i :: 0 <= i < |c.dag.nodes| ==> Registered(registered, c.dag.nodes[i])
    ensures r.Ran? ==> Aggregates(r.results, r.status) && (r.error.Some? <==> r.status == RunFailed)
    ensures r.Ran? && r.error.Some? ==> FailedAt(r.results, r.error.value)
    ensures r.Ran? && cancelled ==>
      r.results == map n | n in c.dag.Ids() :: NodeResult(n, Skipped, Cancelled, None, "")
    ensures r.Ran? && !cancelled && Undisturbed(course) ==>
      forall def :: def in c.dag.nodes ==> RecordRight(c, r.results, def)
    ensures r.Ran? && !cancelled ==> forall o :: TopoOrder(c.dag, o) ==> r.results.Keys == c.dag.Ids()
    ensures r.Ran? && !cancelled && Undisturbed(course) ==>
      forall o :: TopoOrder(c.dag, o) ==> r.results == Sequential(c, o)
    ensures r.Ran? && !cancelled ==> exists acts: seq<Action> :: Leaves(c, course, acts, r.results, r.error)
  {
    var defect := Validate(c.dag);
    if defect.Some? {
      return Rejected(defect.value);
    }
    var unknown := FirstUnknown(c.dag, registered);
    if unknown.Some? {
      return UnknownType(unknown.value);
    }
    if cancelled {
      var skipped := SkipAll(c.dag);
      var st := AggregateStatus(skipped);
      return Ran(skipped, st, None);
    }
    var results, firstErr := RunLoop(c, course);
    ghost var acts :| Leaves(c, course, acts, results, firstErr);
    var status := AggregateStatus(results);
    ErrorIffFailed(c, false, acts, status);
    LeftRecords(c, course, acts, results, firstErr);
    r := Ran(results, status, firstErr);
  }

  lemma LeftRecords(c: Config, course: Course, acts: seq<Action>, results: map<Id, NodeResult>, firstErr: Option<Id>)
    requires c.dag.Valid() && Leaves(c, course, acts, results, firstErr)
    ensures forall o :: TopoOrder(c.dag, o) ==> results.Keys == c.dag.Ids()
    ensures Undisturbed(course) ==> forall o :: TopoOrder(c.dag, o) ==> results == Sequential(c, o)
    ensures Undisturbed(course) ==> forall def :: def in c.dag.nodes ==> RecordRight(c, results, def)
  {
    forall def | def in c.dag.nodes && Undisturbed(course) ensures RecordRight(c, results, def) {
      RecordsRight(c, acts, def);
    }
    forall o | TopoOrder(c.dag, o)
      ensures results.Keys == c.dag.Ids() && (Undisturbed(course) ==> results == Sequential(c, o))
    {
      AcyclicCoverage(c, acts, o);
      if Undisturbed(course) {
        RunsAgreeWithSequential(c, acts, o);
      }
    }
  }

  /** The early-cancel branch. */
  method SkipAll(d: Dag) returns (r: map<Id, NodeResult>)
    ensures r == map n | n in d.Ids() :: NodeResult(n, Skipped, Cancelled, None, "")
    ensures forall n :: !FailedAt(r, n)
  {
    r := map[];
    for i := 0 to |d.nodes|
      invariant forall n :: n in r ==> n in d.Ids() && r[n] == SkippedFor(n, Cancelled)
      invariant forall k :: 0 <= k < i ==> d.nodes[k].id in r
    {
      assert d.nodes[i] in d.nodes;
      r := r[d.nodes[i].id := SkippedFor(d.nodes[i].id, Cancelled)];
    }
    forall n | n in d.Ids() ensures n in r {
      var m :| m in d.nodes && m.id == n;
      var k :| 0 <= k < |d.nodes| && d.nodes[k] == m;
    }
  }

  // --- running up to a node -----------------------------------------------------------------

  datatype PathRun =
    | TargetMissing
    | Refused(defect: Defect)
    | PathDone(results: map<Id, NodeResult>, status: RunStatus, unknown: Option<nat>)

  /** Both record the node alike, or neither records it. */
  ghost predicate SameRecord(r1: map<Id, NodeResult>, r2: map<Id, NodeResult>, n: Id)
  {
    (n in r1 <==> n in r2) && (n in r1 ==> r1[n] == r2[n])
  }

  /** Every node that does not lead to the target is recorded as not in its path. */
  ghost predicate OutsideSkipped(d: Dag, target: Id, results: map<Id, NodeResult>)
  {
    forall n :: n in d.Ids() && !LeadsTo(d, n, target) ==>
      n in results && results[n] == NodeResult(n, Skipped, NotInPath, None, "")
  }

  /** The target and its ancestors have the records that every uncancelled full run gives them. */
  ghost predicate AsInFullRuns(c: Config, target: Id, results: map<Id, NodeResult>)
    requires c.dag.Valid()
  {
    forall acts: seq<Action> :: FinishedRun(c, acts) && !After(c, false, acts).cancelled ==>
      forall n :: n in c.dag.Ids() && LeadsTo(c.dag, n, target) ==>
        SameRecord(results, After(c, false, acts).core.results, n)
  }

  /** A run of the sub-graph records nothing outside the path. */
  lemma SubRunInside(c: Config, inPath: set<Id>, acts: seq<Action>)
    requires Restricted(c.dag, inPath).Valid() && FinishedRun(c.(dag := Restricted(c.dag, inPath)), acts)
    ensures After(c.(dag := Restricted(c.dag, inPath)), false, acts).core.results.Keys <= inPath
  {
    var c' := c.(dag := Restricted(c.dag, inPath));
    KeptIds(c.dag.nodes, inPath);
    RunFinished(c', acts);
    assert c'.dag.Ids() <= inPath;
  }

  lemma MarkingKeepsFailures(d: Dag, inPath: set<Id>, results: map<Id, NodeResult>)
    ensures forall f :: FailedAt(WithOutside(d, inPath, results), f) <==> FailedAt(results, f)
  {
  }

  /** A valid graph gives a valid sub-graph, so only an invalid one is refused. */
  lemma SubGraphOfValid(d: Dag, target: Id, inPath: set<Id>)
    requires d.Valid() && target in d.Ids() && forall x :: x in inPath <==> LeadsTo(d, x, target)
    ensures Restricted(d, inPath).Valid()
  {
    PathSetOfTarget(d, target, inPath);
    SubDagValid(d, inPath);
  }

  /** Every node that leads to the target is skipped because the run was cancelled before its start. */
  ghost predicate PathCancelled(d: Dag, target: Id, results: map<Id, NodeResult>)
  {
    forall n :: n in d.Ids() && LeadsTo(d, n, target) ==>
      n in results && results[n] == NodeResult(n, Skipped, Cancelled, None, "")
  }

  /** The part of the graph that leads to the target. */
  ghost function PathDag(d: Dag, target: Id): Dag
  {
    Restricted(d, PathTo(d, target))
  }

  /** The first node of the path whose type is not registered; none when every type of the path is. */
  ghost predicate UnknownInPath(d: Dag, target: Id, registered: (string, string) -> bool, unknown: Option<nat>)
  {
    var nodes := PathDag(d, target).nodes;
    match unknown
    case None => forall n :: n in nodes ==> Registered(registered, n)
    case Some(i) =>
      && i < |nodes| && !Registered(registered, nodes[i])
      && forall k :: 0 <= k < i ==> Registered(registered, nodes[k])
  }

  /** The records are those of a finished run of the path, uncancelled when the course is, and the outside skips. */
  ghost predicate LeftByPathRun(c: Config, target: Id, course: Course, acts: seq<Action>, results: map<Id, NodeResult>)
    requires PathDag(c.dag, target).Valid()
  {
    var c' := c.(dag := PathDag(c.dag, target));
    && FinishedRun(c', acts) && (Undisturbed(course) ==> !After(c', false, acts).cancelled)
    && results == WithOutside(c.dag, PathTo(c.dag, target), After(c', false, acts).core.results)
  }

  /** What is left when the inner run was cancelled before its start. */
  lemma CancelledPath(d: Dag, target: Id, inPath: set<Id>, results: map<Id, NodeResult>)
    requires forall x :: x in inPath <==> LeadsTo(d, x, target)
    requires results == WithOutside(d, inPath, map n | n in Restricted(d, inPath).Ids() :: SkippedFor(n, Cancelled))
    ensures OutsideSkipped(d, target, results) && PathCancelled(d, target, results)
  {
    KeptIds(d.nodes, inPath);
    forall n | n in d.Ids() && n in inPath ensures n in Restricted(d, inPath).Ids() {
      var m :| m in d.nodes && m.id == n;
      assert m in Restricted(d, inPath).nodes;
    }
  }

  /** Every record of a node that leads to the target is a success; the outside skips do not count. */
  ghost predicate PathSucceeded(d: Dag, target: Id, results: map<Id, NodeResult>)
  {
    forall n :: n in results && LeadsTo(d, n, target) ==> results[n].status == Success
  }

  /** The status of the inner run is that of the path. */
  lemma PathStatus(d: Dag, target: Id, inPath: set<Id>, inner: map<Id, NodeResult>, st: RunStatus)
    requires (forall x :: x in inPath <==> LeadsTo(d, x, target)) && inner.Keys <= inPath && Aggregates(inner, st)
    ensures st == RunSuccess <==> PathSucceeded(d, target, WithOutside(d, inPath, inner))
  {
    var results := WithOutside(d, inPath, inner);
    forall n | n in results && LeadsTo(d, n, target) ensures n in inner && results[n] == inner[n] {
    }
    forall n | n in inner ensures n in results && results[n] == inner[n] && LeadsTo(d, n, target) {
    }
  }

  /** What is left when the inner run met an unregistered type: no record inside the path. */
  lemma UnknownPath(d: Dag, target: Id, inPath: set<Id>, results: map<Id, NodeResult>)
    requires forall x :: x in inPath <==> LeadsTo(d, x, target)
    requires results == WithOutside(d, inPath, map[])
    ensures OutsideSkipped(d, target, results) && forall f :: !FailedAt(results, f)
    ensures forall n :: n in d.Ids() && LeadsTo(d, n, target) ==> n !in results
  {
  }

  /** What is left of an inner run. */
  lemma RanPath(c: Config, target: Id, inPath: set<Id>, course: Course, inner: map<Id, NodeResult>,
                firstErr: Option<Id>, results: map<Id, NodeResult>)
    requires target in c.dag.Ids() && forall x :: x in inPath <==> LeadsTo(c.dag, x, target)
    requires Restricted(c.dag, inPath).Valid() && results == WithOutside(c.dag, inPath, inner)
    requires exists acts: seq<Action> :: Leaves(c.(dag := Restricted(c.dag, inPath)), course, acts, inner, firstErr)
    ensures OutsideSkipped(c.dag, target, results)
    ensures PathDag(c.dag, target).Valid()
    ensures exists acts: seq<Action> :: LeftByPathRun(c, target, course, acts, results)
    ensures Undisturbed(course) && c.dag.Valid() ==> AsInFullRuns(c, target, results)
  {
    PathToExact(c.dag, target, inPath);
    var acts: seq<Action> :| Leaves(c.(dag := Restricted(c.dag, inPath)), course, acts, inner, firstErr);
    assert LeftByPathRun(c, target, course, acts, results);
    SubRunInside(c, inPath, acts);
    if Undisturbed(course) && c.dag.Valid() {
      ToNodeAgrees(c, target, inPath, acts, results);
    }
  }

  lemma PathStatuses(d: Dag, target: Id, inPath: set<Id>, inner: map<Id, NodeResult>, status: RunStatus,
                     results: map<Id, NodeResult>)
    requires (forall x :: x in inPath <==> LeadsTo(d, x, target)) && inner.Keys <= inPath && Aggregates(inner, status)
    requires results == WithOutside(d, inPath, inner)
    ensures status == RunFailed <==> exists f :: FailedAt(results, f)
    ensures status == RunSuccess <==> PathSucceeded(d, target, results)
  {
    MarkingKeepsFailures(d, inPath, inner);
    PathStatus(d, target, inPath, inner, status);
  }

  /** All that is left of an inner run cancelled before its start. */
  lemma CancelledDone(d: Dag, target: Id, inPath: set<Id>, inner: map<Id, NodeResult>, status: RunStatus,
                      results: map<Id, NodeResult>)
    requires (forall x :: x in inPath <==> LeadsTo(d, x, target)) && Aggregates(inner, status)
    requires inner == map n | n in Restricted(d, inPath).Ids() :: NodeResult(n, Skipped, Cancelled, None, "")
    requires results == WithOutside(d, inPath, inner)
    ensures OutsideSkipped(d, target, results) && PathCancelled(d, target, results)
    ensures status == RunFailed <==> exists f :: FailedAt(results, f)
    ensures status == RunSuccess <==> PathSucceeded(d, target, results)
  {
    KeptIds(d.nodes, inPath);
    PathStatuses(d, target, inPath, inner, status, results);
    CancelledPath(d, target, inPath, results);
  }

  /** All that is left of an inner run that was started. */
  lemma RanDone(c: Config, target: Id, inPath: set<Id>, course: Course, inner: map<Id, NodeResult>,
                status: RunStatus, firstErr: Option<Id>, results: map<Id, NodeResult>)
    requires target in c.dag.Ids() && forall x :: x in inPath <==> LeadsTo(c.dag, x, target)
    requires Restricted(c.dag, inPath).Valid() && results == WithOutside(c.dag, inPath, inner)
    requires exists acts: seq<Action> :: Leaves(c.(dag := Restricted(c.dag, inPath)), course, acts, inner, firstErr)
    requires Aggregates(inner, status)
    ensures OutsideSkipped(c.dag, target, results)
    ensures status == RunFailed <==> exists f :: FailedAt(results, f)
    ensures status == RunSuccess <==> PathSucceeded(c.dag, target, results)
    ensures PathDag(c.dag, target).Valid()
    ensures exists acts: seq<Action> :: LeftByPathRun(c, target, course, acts, results)
    ensures Undisturbed(course) && c.dag.Valid() ==> AsInFullRuns(c, target, results)
  {
    InnerInside(c, inPath, course, inner, firstErr);
    PathStatuses(c.dag, target, inPath, inner, status, results);
    RanPath(c, target, inPath, course, inner, firstErr, results);
  }

  /** The inner run records nothing outside the path. */
  lemma InnerInside(c: Config, inPath: set<Id>, course: Course, inner: map<Id, NodeResult>, firstErr: Option<Id>)
    requires Restricted(c.dag, inPath).Valid()
    requires exists acts: seq<Action> :: Leaves(c.(dag := Restricted(c.dag, inPath)), course, acts, inner, firstErr)
    ensures inner.Keys <= inPath
  {
    var acts: seq<Action> :| Leaves(c.(dag := Restricted(c.dag, inPath)), course, acts, inner, firstErr);
    SubRunInside(c, inPath, acts);
  }

  /**
   `ExecuteToNode`.  Every node that does not lead to the target is skipped as not in its path; in an
   undisturbed run the target and its ancestors get the records any uncancelled full run gives them.
   Only the part of the graph that leads to the target is validated and looked up in the registry.  The
   error of the inner run is dropped, but its status still tells whether a node failed.
   */
  method ExecuteToNode(c: Config, registered: (string, string) -> bool, cancelled: bool, course: Course, target: Id)
    returns (r: PathRun)
    ensures r.TargetMissing? <==> target !in c.dag.Ids()
    ensures r.Refused? <==> target in c.dag.Ids() && !PathDag(c.dag, target).Valid()
    ensures r.Refused? ==> Exhibits(PathDag(c.dag, target), r.defect) && !c.dag.Valid()
    ensures r.PathDone? ==> UnknownInPath(c.dag, target, registered, r.unknown)
    ensures r.PathDone? && r.unknown.Some? ==>
      forall n :: n in c.dag.Ids() && LeadsTo(c.dag, n, target) ==> n !in r.results
    ensures r.PathDone? && r.unknown.None? && !cancelled ==>
      exists acts: seq<Action> :: LeftByPathRun(c, target, course, acts, r.results)
    ensures r.PathDone? ==> OutsideSkipped(c.dag, target, r.results)
    ensures r.PathDone? ==> (r.status == RunFailed <==> r.unknown.Some? || exists f :: FailedAt(r.results, f))
    ensures r.PathDone? && r.unknown.None? ==> (r.status == RunSuccess <==> PathSucceeded(c.dag, target, r.results))
    ensures r.PathDone? && cancelled && r.unknown.None? ==> PathCancelled(c.dag, target, r.results)
    ensures r.PathDone? && !cancelled && Undisturbed(course) && r.unknown.None? && c.dag.Valid() ==>
      AsInFullRuns(c, target, r.results)
  {
    if NodeById(c.dag.nodes, target).None? {
      return TargetMissing;
    }
    var inPath := CollectPath(c.dag, target);
    PathToExact(c.dag, target, inPath);
    var sub := BuildSubDag(c.dag, inPath);
    var run := ExecuteDag(c.(dag := sub), registered, cancelled, course);
    match run
    case Rejected(defect) =>
      if c.dag.Valid() {
        SubGraphOfValid(c.dag, target, inPath);
      }
      r := Refused(defect);
    case UnknownType(i) =>
      assert UnknownInPath(c.dag, target, registered, Some(i));
      var results := MarkOutside(c.dag, inPath, map[]);
      UnknownPath(c.dag, target, inPath, results);
      r := PathDone(results, RunFailed, Some(i));
    case Ran(inner, status, firstErr) =>
      var results := MarkOutside(c.dag, inPath, inner);
      if cancelled {
        CancelledDone(c.dag, target, inPath, inner, status, results);
      } else {
        RanDone(c, target, inPath, course, inner, status, firstErr, results);
      }
      r := PathDone(results, status, None);
  }

  lemma ToNodeAgrees(c: Config, target: Id, inPath: set<Id>, subActs: seq<Action>, results: map<Id, NodeResult>)
    requires target in c.dag.Ids() && forall x :: x in inPath <==> LeadsTo(c.dag, x, target)
    requires Restricted(c.dag, inPath).Valid() && FinishedRun(c.(dag := Restricted(c.dag, inPath)), subActs)
    requires !After(c.(dag := Restricted(c.dag, inPath)), false, subActs).cancelled
    requires results ==
      WithOutside(c.dag, inPath, After(c.(dag := Restricted(c.dag, inPath)), false, subActs).core.results)
    ensures OutsideSkipped(c.dag, target, results)
    ensures c.dag.Valid() ==> AsInFullRuns(c, target, results)
  {
    SubRunInside(c, inPath, subActs);
    if c.dag.Valid() {
      forall acts: seq<Action>, n | FinishedRun(c, acts) && !After(c, false, acts).cancelled
          && n in c.dag.Ids() && LeadsTo(c.dag, n, target)
        ensures SameRecord(results, After(c, false, acts).core.results, n)
      {
        ExecuteToNodeAgrees(c, acts, c.maxConcurrency, subActs, target, inPath, n);
      }
    }
  }
}
