/**
 `Execute` in its own form: an object holding the scheduler's variables, the closures of the main
 loop as methods, and the loop itself.  Which in-flight node reports next is left open.
 */
module Scheduler {
  import opened Wrappers
  import opened Ordering
  import opened Graph
  import opened TopoSort
  import opened Closure
  import opened Engine
  import opened EngineSteps

  // --- what one turn of the main loop does --------------------------------------------------

  function EnqueuedAll(core: Core, children: seq<Id>): Core
    decreases |children|
  {
    if children == [] then core
    else EnqueuedAll(Enqueued(core, children[0]), children[1..])
  }

  /** Recording a received result, cascading a failure, releasing the children. */
  function NodeDone(d: Dag, core: Core, res: NodeResult): Core
    requires d.Valid()
  {
    var recorded := Recorded(core, res);
    EnqueuedAll(if res.status == Failed then Cascaded(d, recorded, res.id) else recorded,
                Successors(d.edges, res.id))
  }

  /** Everything ready is dispatched. */
  function Drained(core: Core): Core
  {
    core.(ready := [], inFlight := core.inFlight + |core.ready|)
  }

  // --- the object ---------------------------------------------------------------------------

  class Loop {
    const dag: Dag
    var ready: seq<Id>
    var pending: map<Id, int>
    var completed: map<Id, Status>
    var payloads: map<Id, Payload>
    var results: map<Id, NodeResult>
    var inFlight: int
    var firstErr: Option<Id>

    ghost predicate Valid()
      reads this
    {
      dag.Valid() && Sorted(ready) && forall n :: n in ready ==> n != ""
    }

    function View(): Core
      reads this
    {
      Core(ready, pending, completed, payloads, results, inFlight, firstErr)
    }

    constructor (d: Dag)
      requires d.Valid()
      ensures Valid() && dag == d && View() == InitialCore(d)
    {
      dag := d;
      ready := InitialReady(d);
      pending := map n | n in d.Ids() :: |Predecessors(d.edges, n)|;
      completed, payloads, results := map[], map[], map[];
      inFlight, firstErr := 0, None;
      new;
      InitialReadyExact(d);
      IdsNonEmpty(d);
    }

    method RecordResult(res: NodeResult)
      modifies this
      ensures View() == Recorded(old(View()), res)
    {
      completed := completed[res.id := res.status];
      results := results[res.id := res];
      if res.payload.Some? {
        payloads := payloads[res.id := res.payload.value];
      }
    }

    /** The head of the queue, or "" when it is empty; no node id is empty. */
    method NextReady() returns (head: Id)
      requires Valid()
      modifies this`ready
      ensures Valid()
      ensures if old(ready) == [] then head == "" && ready == [] else [head] + ready == old(ready) && head != ""
    {
      if |ready| == 0 {
        return "";
      }
      head := ready[0];
      assert head in ready && ready == [head] + ready[1..];
      ready := ready[1..];
    }

    method EnqueueChildren(node: Id)
      requires Valid()
      modifies this`pending, this`ready
      ensures Valid() && View() == EnqueuedAll(old(View()), Successors(dag.edges, node))
    {
      var children := SuccessorsOf(dag, node);
      IdsNonEmpty(dag);
      assert forall k :: 0 <= k < |children| ==> children[k] in children;
      for i := 0 to |children|
        invariant Valid()
        invariant EnqueuedAll(View(), children[i..]) == EnqueuedAll(old(View()), children)
        invariant forall k :: i <= k < |children| ==> children[k] != ""
      {
        assert children[i..][0] == children[i] && children[i..][1..] == children[i + 1..];
        EnqueueChild(children[i]);
      }
    }

    method EnqueueChild(child: Id)
      requires Valid() && child != ""
      modifies this`pending, this`ready
      ensures Valid() && View() == Enqueued(old(View()), child)
    {
      if child !in completed {
        pending := pending[child := (if child in pending then pending[child] else 0) - 1];
        if pending[child] <= 0 {
          InsertedElements(ready, child);
          ready := InsertSorted(ready, child);
        }
      }
    }

    method OnNodeDone(res: NodeResult)
      requires Valid()
      modifies this
      ensures Valid() && View() == NodeDone(dag, old(View()), res)
    {
      RecordResult(res);
      if res.status == Failed {
        CascadeSkip(res.id);
      }
      EnqueueChildren(res.id);
    }

    /** The cascade loop: every descendant without a record is skipped. */
    method CascadeSkip(failed: Id)
      requires Valid()
      modifies this`completed, this`results
      ensures Valid() && View() == Cascaded(dag, old(View()), failed)
    {
      var below := CollectDescendants(failed, dag);
      assert below[..|below|] == below;
      for i := 0 to |below|
        invariant Valid()
        invariant View() == Marked(old(View()), below[..i])
      {
        MarkedOne(old(View()), below[..i], below[i]);
        TakeOne(below, i);
        MarkSkipped(below[i]);
      }
    }

    method MarkSkipped(id: Id)
      requires Valid()
      modifies this`completed, this`results
      ensures Valid() && View() == MarkedAlso(old(View()), id)
    {
      if id !in completed {
        completed := completed[id := Skipped];
        results := results[id := SkippedFor(id, UpstreamFailed)];
      }
    }

    /** Taking a result off the channel. */
    method Accept(res: NodeResult)
      requires Valid()
      modifies this
      ensures Valid()
      ensures View() == NodeDone(dag, Noted(Taken(old(View())), res), res)
    {
      inFlight := inFlight - 1;
      if res.status == Failed && firstErr.None? {
        firstErr := Some(res.id);
      }
      OnNodeDone(res);
    }

    /** Dispatches the whole queue, head first. */
    method DrainReady() returns (dispatched: seq<Id>)
      requires Valid()
      modifies this`ready, this`inFlight
      ensures Valid() && dispatched == old(ready) && View() == Drained(old(View()))
    {
      dispatched := [];
      while true
        invariant Valid()
        invariant dispatched + ready == old(ready)
        invariant inFlight == old(inFlight) + |dispatched|
        decreases |ready|
      {
        var next := NextReady();
        if next == "" {
          break;
        }
        inFlight := inFlight + 1;
        dispatched := dispatched + [next];
      }
    }
  }

  /** What marking one more id does to the status table. */
  lemma StatusesGrow(was: map<Id, Status>, ids: seq<Id>, id: Id)
    ensures
      var m := was + map n | n in ids && n !in was :: Skipped;
      (was + map n | n in ids + [id] && n !in was :: Skipped) == if id in m then m else m[id := Skipped]
  {
    assert forall n :: n in ids + [id] <==> n in ids || n == id;
  }

  /** What marking one more id does to the records. */
  lemma RecordsGrow(done: set<Id>, was: map<Id, NodeResult>, ids: seq<Id>, id: Id)
    ensures
      var m := was + map n | n in ids && n !in done :: SkippedFor(n, UpstreamFailed);
      (was + map n | n in ids + [id] && n !in done :: SkippedFor(n, UpstreamFailed)) ==
      if id in ids || id in done then m else m[id := SkippedFor(id, UpstreamFailed)]
  {
    assert forall n :: n in ids + [id] <==> n in ids || n == id;
  }

  lemma MarkedOne(core: Core, ids: seq<Id>, id: Id)
    ensures Marked(core, ids + [id]) == MarkedAlso(Marked(core, ids), id)
  {
    StatusesGrow(core.completed, ids, id);
    RecordsGrow(core.completed.Keys, core.results, ids, id);
    RecordsByStatus(core, ids, id);
    assert id in Marked(core, ids).completed <==> id in ids || id in core.completed;
  }

  lemma RecordsByStatus(core: Core, ids: seq<Id>, id: Id)
    ensures Marked(core, ids).results ==
            core.results + map n | n in ids && n !in core.completed.Keys :: SkippedFor(n, UpstreamFailed)
  {
  }

  function MarkedAlso(m: Core, id: Id): Core
  {
    if id in m.completed then m
    else m.(completed := m.completed[id := Skipped], results := m.results[id := SkippedFor(id, UpstreamFailed)])
  }

  lemma IdsNonEmpty(d: Dag)
    requires d.Valid()
    ensures forall n :: n in d.Ids() ==> n != ""
  {
    forall n | n in d.Ids() ensures n != "" {
      var m :| m in d.nodes && m.id == n;
      var i :| 0 <= i < |d.nodes| && d.nodes[i] == m;
    }
  }
}
