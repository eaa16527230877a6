/**
 The concurrent run engine as a transition system.

 One main loop owns the scheduler variables.  Every dispatched node has a worker that waits for a
 concurrency slot, looks itself up, builds its inputs, runs its node body, and offers the result on
 an unbuffered channel.  Each critical section of the program is one action here, so an arbitrary
 sequence of actions is an arbitrary interleaving of the goroutines.  Taking a result off the channel
 and recording it are two: in between the worker may already give its slot to another.
 */
module Engine {
  import opened Wrappers
  import opened Ordering
  import opened JsonTree
  import opened Graph
  import opened Closure

  // --- node bodies ------------------------------------------------------------------------

  type Payload = map<string, Json>

  datatype Input = FromNode(payload: Payload) | OwnParams(params: Raw) | OwnText(text: string)

  /** What the call of a node body leads to, with the parent context live. */
  datatype Outcome =
    | Returns(payload: Option<Payload>)
    | Errs(error: string)
    | ErrsCancelled
    | Panics(message: string)

  /** One run: the graph, the concurrency limit, and the body behind each (type, subtype). */
  datatype Config = Config(dag: Dag, maxConcurrency: int, body: (string, string, map<string, Input>) -> Outcome)

  datatype Status = Success | Failed | Skipped

  datatype SkipReason = NoReason | UpstreamFailed | Cancelled | NotInPath

  datatype NodeResult =
    NodeResult(id: Id, status: Status, reason: SkipReason, payload: Option<Payload>, error: string)

  function SkippedFor(n: Id, reason: SkipReason): NodeResult
  {
    NodeResult(n, Skipped, reason, None, "")
  }

  function Classify(n: Id, o: Outcome): NodeResult
  {
    match o
    case Returns(p) => NodeResult(n, Success, NoReason, p, "")
    case Errs(e) => NodeResult(n, Failed, NoReason, None, e)
    case ErrsCancelled => SkippedFor(n, Cancelled)
    case Panics(m) => NodeResult(n, Failed, NoReason, None, m)
  }

  /** With the parent context cancelled every error is a skip. */
  function ClassifyCancelled(n: Id, o: Outcome): NodeResult
  {
    if o.Errs? || o.ErrsCancelled? then SkippedFor(n, Cancelled) else Classify(n, o)
  }

  function Definition(d: Dag, n: Id): Node
  {
    match NodeById(d.nodes, n)
    case Some(def) => def
    case None => Node("", "", "", NoBytes, None)
  }

  /** The payloads of the predecessors that have one, then the node's own settings on top. */
  function InputsFor(d: Dag, payloads: map<Id, Payload>, n: Id): map<string, Input>
  {
    var def := Definition(d, n);
    (map p | p in Predecessors(d.edges, n) && p in payloads :: FromNode(payloads[p])) +
    map["_params" := OwnParams(def.params), "_type" := OwnText(def.typ),
        "_subtype" := OwnText(def.subtype), "_id" := OwnText(def.id)]
  }

  function Run(c: Config, n: Id, inputs: map<string, Input>): Outcome
  {
    var def := Definition(c.dag, n);
    c.body(def.typ, def.subtype, inputs)
  }

  /** The result of a node whose predecessors left these payloads. */
  function NodeOutcome(c: Config, payloads: map<Id, Payload>, n: Id): NodeResult
  {
    Classify(n, Run(c, n, InputsFor(c.dag, payloads, n)))
  }

  // --- the scheduler's variables ----------------------------------------------------------

  datatype Core = Core(
    ready: seq<Id>,
    pending: map<Id, int>,
    completed: map<Id, Status>,
    payloads: map<Id, Payload>,
    results: map<Id, NodeResult>,
    inFlight: int,
    firstErr: Option<Id>)

  function Recorded(core: Core, res: NodeResult): Core
  {
    core.(completed := core.completed[res.id := res.status],
          results := core.results[res.id := res],
          payloads := if res.payload.Some? then core.payloads[res.id := res.payload.value] else core.payloads)
  }

  /** One result fewer outstanding. */
  function Taken(core: Core): Core
  {
    core.(inFlight := core.inFlight - 1)
  }

  /** The first failure is kept. */
  function Noted(core: Core, res: NodeResult): Core
  {
    core.(firstErr := if res.status == Failed && core.firstErr.None? then Some(res.id) else core.firstErr)
  }

  /** Taking one result off the channel: counter, first error, record. */
  function Filed(core: Core, res: NodeResult): Core
  {
    Recorded(Noted(core, res), res)
  }

  /** The listed nodes without a record are skipped because of a failure above them. */
  function Marked(core: Core, ids: seq<Id>): Core
  {
    core.(completed := core.completed + map n | n in ids && n !in core.completed :: Skipped,
          results := core.results + map n | n in ids && n !in core.completed :: SkippedFor(n, UpstreamFailed))
  }

  /** A failure skips every descendant that has no result yet. */
  function Cascaded(d: Dag, core: Core, failed: Id): Core
    requires d.Valid()
  {
    Marked(core, Descendants(d, failed))
  }

  /** One child of a finished node: skipped if done, else its counter drops and at zero it is queued. */
  function Enqueued(core: Core, child: Id): Core
  {
    if child in core.completed then core
    else
      var p := (if child in core.pending then core.pending[child] else 0) - 1;
      core.(pending := core.pending[child := p],
            ready := if p <= 0 then Inserted(core.ready, child) else core.ready)
  }

  function InitialCore(d: Dag): Core
  {
    Core(InitialReady(d), map n | n in d.Ids() :: |Predecessors(d.edges, n)|, map[], map[], map[], 0, None)
  }

  /** The nodes without incoming edges, in list order. */
  function Roots(d: Dag, nodes: seq<Node>): seq<Id>
  {
    if nodes == [] then []
    else
      var n := nodes[|nodes| - 1].id;
      Roots(d, nodes[..|nodes| - 1]) + if Predecessors(d.edges, n) == [] then [n] else []
  }

  function SortedIds(s: seq<Id>): seq<Id>
  {
    if s == [] then [] else Inserted(SortedIds(s[..|s| - 1]), s[|s| - 1])
  }

  function InitialReady(d: Dag): seq<Id>
  {
    SortedIds(Roots(d, d.nodes))
  }

  // --- workers ----------------------------------------------------------------------------

  datatype Phase =
    | Waiting                               // dispatched, no slot yet
    | Holding                               // has a slot, has not looked itself up
    | Checked                               // not completed, context live, about to read payloads
    | Running(inputs: map<string, Input>)   // inside the node body
    | Finished(result: NodeResult)          // blocked on the channel, result not received
    | Delivered(result: NodeResult)         // received, slot not given back, result not recorded yet
    | Left(result: NodeResult)              // received, slot given back, result not recorded yet
    | Releasing                             // recorded, slot not given back yet
    | Gone

  datatype Worker = Worker(node: Id, phase: Phase)

  predicate HoldsSlot(p: Phase)
  {
    p.Holding? || p.Checked? || p.Running? || p.Finished? || p.Delivered? || p.Releasing?
  }

  /** Not received yet. */
  predicate InFlight(p: Phase)
  {
    !Handed(p) && !p.Releasing? && !p.Gone?
  }

  /** Received, but the main loop has not recorded the result yet. */
  predicate Handed(p: Phase)
  {
    p.Delivered? || p.Left?
  }

  predicate Unrecorded(p: Phase)
  {
    InFlight(p) || Handed(p)
  }

  function Count(ws: seq<Worker>, p: Phase -> bool): nat
  {
    if ws == [] then 0
    else Count(ws[..|ws| - 1], p) + if p(ws[|ws| - 1].phase) then 1 else 0
  }

  function Nodes(ws: seq<Worker>): seq<Id>
  {
    seq(|ws|, i requires 0 <= i < |ws| => ws[i].node)
  }

  function Limit(c: Config): int
  {
    if c.maxConcurrency < 1 then 1 else c.maxConcurrency
  }

  // --- the transition system --------------------------------------------------------------

  /** Where the main loop stands. */
  datatype Pc =
    | Receiving                  // blocked on the channel, or past the loop when nothing is in flight
    | Recording(worker: nat)     // has taken this worker's result off the channel
    | Cascading(failed: Id)      // recorded a failure, about to skip its descendants
    | Enqueuing(rest: seq<Id>)   // walking the successors of the recorded node
    | Draining                   // dispatching the ready queue
    | Aborted                    // the context was cancelled before the start

  datatype State = State(core: Core, workers: seq<Worker>, cancelled: bool, pc: Pc)

  datatype Action =
    | Receive(worker: nat)
    | Record
    | Cascade
    | EnqueueNext
    | DrainNext
    | Acquire(worker: nat)
    | Check(worker: nat)
    | Build(worker: nat)
    | Finish(worker: nat, outcome: Outcome)
    | Release(worker: nat)
    | Cancel

  function Init(c: Config, cancelled: bool): State
  {
    var core := InitialCore(c.dag);
    if cancelled then
      State(core.(results := map n | n in c.dag.Ids() :: SkippedFor(n, Cancelled)), [], true, Aborted)
    else
      State(core, [], false, Draining)
  }

  function PhaseOf(s: State, i: nat): Phase
  {
    if i < |s.workers| then s.workers[i].phase else Gone
  }

  predicate Enabled(c: Config, s: State, a: Action)
  {
    match a
    case Receive(i) => s.pc.Receiving? && PhaseOf(s, i).Finished?
    case Record => s.pc.Recording? && Handed(PhaseOf(s, s.pc.worker))
    case Cascade => s.pc.Cascading?
    case EnqueueNext => s.pc.Enqueuing?
    case DrainNext => s.pc.Draining?
    case Acquire(i) => PhaseOf(s, i).Waiting? && Count(s.workers, HoldsSlot) < Limit(c)
    case Check(i) => PhaseOf(s, i).Holding?
    case Build(i) => PhaseOf(s, i).Checked?
    case Finish(i, o) =>
      PhaseOf(s, i).Running? && (s.cancelled || o == Run(c, s.workers[i].node, s.workers[i].phase.inputs))
    case Release(i) => PhaseOf(s, i).Releasing? || PhaseOf(s, i).Delivered?
    case Cancel => !s.cancelled
  }

  function Moved(s: State, i: nat, p: Phase): State
    requires i < |s.workers|
  {
    s.(workers := s.workers[i := s.workers[i].(phase := p)])
  }

  /** The worker's look at itself: an existing record, a dead context, or go on. */
  function Looked(s: State, n: Id): Phase
  {
    if n in s.core.completed then
      var st := s.core.completed[n];
      Finished(NodeResult(n, st, if st == Skipped then UpstreamFailed else NoReason, None, ""))
    else if s.cancelled then Finished(SkippedFor(n, Cancelled))
    else Checked
  }

  function Apply(c: Config, s: State, a: Action): State
    requires c.dag.Valid() && Enabled(c, s, a)
  {
    match a
    case Receive(i) =>
      Moved(s, i, Delivered(s.workers[i].phase.result)).(core := Taken(s.core), pc := Recording(i))
    case Record =>
      var i := s.pc.worker;
      var res := s.workers[i].phase.result;
      Moved(s, i, if s.workers[i].phase.Delivered? then Releasing else Gone).(
        core := Filed(s.core, res),
        pc := if res.status == Failed then Cascading(res.id) else Enqueuing(Successors(c.dag.edges, res.id)))
    case Cascade =>
      s.(core := Cascaded(c.dag, s.core, s.pc.failed), pc := Enqueuing(Successors(c.dag.edges, s.pc.failed)))
    case EnqueueNext =>
      if s.pc.rest == [] then s.(pc := Draining)
      else s.(core := Enqueued(s.core, s.pc.rest[0]), pc := Enqueuing(s.pc.rest[1..]))
    case DrainNext =>
      if s.core.ready == [] then s.(pc := Receiving)
      else s.(core := s.core.(ready := s.core.ready[1..], inFlight := s.core.inFlight + 1),
              workers := s.workers + [Worker(s.core.ready[0], Waiting)])
    case Acquire(i) => Moved(s, i, Holding)
    case Check(i) => Moved(s, i, Looked(s, s.workers[i].node))
    case Build(i) => Moved(s, i, Running(InputsFor(c.dag, s.core.payloads, s.workers[i].node)))
    case Finish(i, o) =>
      var n := s.workers[i].node;
      Moved(s, i, Finished(if s.cancelled then ClassifyCancelled(n, o) else Classify(n, o)))
    case Release(i) =>
      var p := s.workers[i].phase;
      Moved(s, i, if p.Delivered? then Left(p.result) else Gone)
    case Cancel => s.(cancelled := true)
  }

  /** An action that is not enabled changes nothing. */
  function Step(c: Config, s: State, a: Action): State
    requires c.dag.Valid()
  {
    if Enabled(c, s, a) then Apply(c, s, a) else s
  }

  /** The state after a run: any list of actions is a run. */
  function After(c: Config, cancelled: bool, acts: seq<Action>): State
    requires c.dag.Valid()
  {
    if acts == [] then Init(c, cancelled)
    else Step(c, After(c, cancelled, acts[..|acts| - 1]), acts[|acts| - 1])
  }

  /** The main loop is over. */
  predicate Exited(s: State)
  {
    s.pc.Aborted? || (s.pc.Receiving? && s.core.inFlight == 0)
  }
}
